/** Writing a list of entries out, and reading it back. */
module VersionsPrinter {
  import opened VersionsJson
  import opened Wrappers

  /** A string with its quotes and backslashes escaped. */
  function Escape(s: string): (q: seq<Piece>)
    ensures Quotable(q) && Content(q) == s
  {
    if s == [] then []
    else
      var rest := Escape(s[1..]);
      var q := [Piece(s[0], s[0] == '"' || s[0] == '\\')] + rest;
      assert q[1..] == rest;
      q
  }

  function DecimalDigit(d: nat): (c: char)
    requires d < 10
    ensures IsDigit(c) && (c - '0') as nat == d
  {
    '0' + d as char
  }

  function Decimal(n: nat): (ds: string)
    ensures ds != [] && (forall c :: c in ds ==> IsDigit(c)) && DigitsValue(ds) == n
  {
    var last := [DecimalDigit(n % 10)];
    if n < 10 then last
    else
      var ds := Decimal(n / 10) + last;
      assert ds[..|ds| - 1] == Decimal(n / 10);
      ds
  }

  function ItemDocs(items: seq<string>): (docs: seq<ItemDoc>)
    ensures (forall d :: d in docs ==> ItemOk(d)) && Items(docs) == items
  {
    if items == [] then []
    else
      var rest := ItemDocs(items[1..]);
      var docs := [ItemDoc(Escape(items[0]), "", " ")] + rest;
      assert docs[1..] == rest;
      docs
  }

  /** A field on its own line. */
  function Field(name: string, value: ValueDoc): FieldDoc {
    FieldDoc(Escape(name), "", " ", value, "", "\n    ")
  }

  predicate Printable(e: VersionsEntry) {
    0 <= e.peTimestamp < WORD32
  }

  /** What a printed field must do to the entry it stands in. */
  ghost predicate Sets(f: FieldDoc, x: VersionsEntry, y: VersionsEntry) {
    FieldOk(f) && Apply(x, f) == y
  }

  function TimestampField(e: VersionsEntry): FieldDoc
    requires Printable(e)
  {
    Field("pe_timestamp", IntDoc(false, Decimal(e.peTimestamp)))
  }

  function HashField(e: VersionsEntry): FieldDoc {
    Field("text_sha256", StringDoc(Escape(e.textSha256)))
  }

  function TestedField(e: VersionsEntry): FieldDoc {
    Field("tested", BoolDoc(e.tested))
  }

  function DisableField(e: VersionsEntry): FieldDoc {
    Field("auto_disable", ArrayDoc("", ItemDocs(e.autoDisable)))
  }

  function EntryFields(e: VersionsEntry): seq<FieldDoc>
    requires Printable(e)
  {
    [TimestampField(e), HashField(e), TestedField(e), DisableField(e)]
  }

  function Entry(e: VersionsEntry): EntryDoc
    requires Printable(e)
  {
    EntryDoc(Escape(e.version), "", " ", "\n    ", EntryFields(e), "\n", "\n")
  }

  function Entries(es: seq<VersionsEntry>): seq<EntryDoc>
    requires forall e :: e in es ==> Printable(e)
  {
    if es == [] then [] else [Entry(es[0])] + Entries(es[1..])
  }

  function Print(es: seq<VersionsEntry>): string
    requires forall e :: e in es ==> Printable(e)
  {
    FileText(FileDoc("", "\n", Entries(es)), "\n")
  }

  lemma TimestampIsSet(e: VersionsEntry, x: VersionsEntry)
    requires Printable(e)
    ensures Sets(TimestampField(e), x, x.(peTimestamp := e.peTimestamp))
  {
    hide Quotable, Content, DigitsValue, Escape, Decimal;
  }

  lemma HashIsSet(e: VersionsEntry, x: VersionsEntry)
    ensures Sets(HashField(e), x, x.(textSha256 := e.textSha256))
  {
    hide Quotable, Content, Escape;
  }

  lemma TestedIsSet(e: VersionsEntry, x: VersionsEntry)
    ensures Sets(TestedField(e), x, x.(tested := e.tested))
  {
    hide Quotable, Content, Escape;
  }

  lemma DisableIsSet(e: VersionsEntry, x: VersionsEntry)
    ensures Sets(DisableField(e), x, x.(autoDisable := e.autoDisable))
  {
    hide Quotable, Content, Items, ItemOk, Escape, ItemDocs;
  }

  lemma ApplyFirst(e: VersionsEntry, fs: seq<FieldDoc>)
    requires fs != [] && forall f :: f in fs ==> FieldOk(f)
    ensures FieldOk(fs[0]) && ApplyAll(e, fs) == ApplyAll(Apply(e, fs[0]), fs[1..])
  {
    hide FieldOk, Apply;
  }

  /** Setting the four fields one after the other leaves nothing of the entry they are set in. */
  lemma ApplyFields(e: VersionsEntry)
    requires Printable(e)
    ensures (forall f :: f in EntryFields(e) ==> FieldOk(f)) && ApplyAll(NewEntry(e.version), EntryFields(e)) == e
  {
    hide TimestampField, HashField, TestedField, DisableField, Apply, ApplyAll, FieldOk;
    var fs := EntryFields(e);
    var e0 := NewEntry(e.version);
    TimestampIsSet(e, e0);
    var e1 := e0.(peTimestamp := e.peTimestamp);
    HashIsSet(e, e1);
    var e2 := e1.(textSha256 := e.textSha256);
    TestedIsSet(e, e2);
    var e3 := e2.(tested := e.tested);
    DisableIsSet(e, e3);
    ApplyFirst(e0, fs);
    ApplyFirst(e1, fs[1..]);
    assert fs[1..][1..] == fs[2..] && fs[2..][1..] == fs[3..] && fs[3..][1..] == [];
    ApplyFirst(e2, fs[2..]);
    ApplyFirst(e3, fs[3..]);
    ApplyNone(e);
  }

  lemma ApplyNone(e: VersionsEntry)
    ensures ApplyAll(e, []) == e
  {
  }

  lemma EntryMeans(e: VersionsEntry)
    requires Printable(e)
    ensures EntryOk(Entry(e)) && EntryMeaning(Entry(e)) == e
  {
    hide Quotable, Content, ApplyAll, FieldOk, EntryFields, Escape;
    ApplyFields(e);
  }

  lemma {:induction false} EntriesMean(es: seq<VersionsEntry>)
    requires forall e :: e in es ==> Printable(e)
    ensures (forall d :: d in Entries(es) ==> EntryOk(d)) && Meaning(Entries(es)) == es
  {
    hide Entry, EntryOk, EntryMeaning, Printable;
    if es != [] {
      EntryMeans(es[0]);
      EntriesMean(es[1..]);
      assert Entries(es)[1..] == Entries(es[1..]);
    }
  }

  /** Reading undoes printing, for any strings and any list of entries. */
  lemma PrintThenParse(es: seq<VersionsEntry>)
    requires forall e :: e in es ==> Printable(e)
    ensures Parse(Print(es)) == Ok(es, "\n") && Load(Print(es)) == Some(Usable(es))
  {
    hide Entries, EntryOk, Meaning, FileText, Parse, Printable;
    EntriesMean(es);
    ReadFile(FileDoc("", "\n", Entries(es)), "\n");
  }
}
