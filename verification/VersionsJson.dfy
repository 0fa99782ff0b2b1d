/** The versions.json reader: what its recursive descent accepts and returns. Each function takes the
    text from the parser's position on, and gives back the value and the text that is left. */
module VersionsJson {
  import opened Wrappers

  const INT64_MAX: int := 0x7FFF_FFFF_FFFF_FFFF
  const WORD32: int := 0x1_0000_0000

  datatype VersionsEntry = VersionsEntry(version: string, peTimestamp: int, textSha256: string, tested: bool,
                                         autoDisable: seq<string>)

  /** A parse that fails gives up on the whole file. */
  datatype Parsed<+T> = Fail | Ok(value: T, rest: string) {
    predicate IsFailure() {
      Fail?
    }

    function PropagateFailure<U>(): Parsed<U>
      requires Fail?
    {
      Fail
    }

    function Extract(): (T, string)
      requires Ok?
    {
      (value, rest)
    }
  }

  // ---- tokens --------------------------------------------------------------------------------

  predicate IsSpace(c: char) {
    c == ' ' || c == '\n' || c == '\r' || c == '\t'
  }

  predicate IsDigit(c: char) {
    '0' <= c <= '9'
  }

  predicate Starts(s: string, c: char) {
    s != [] && s[0] == c
  }

  function SkipSpace(s: string): (r: string)
    ensures |r| <= |s|
  {
    if s != [] && IsSpace(s[0]) then SkipSpace(s[1..]) else s
  }

  lemma {:induction false} SkipTwice(s: string)
    ensures SkipSpace(SkipSpace(s)) == SkipSpace(s)
  {
    if s != [] && IsSpace(s[0]) { SkipTwice(s[1..]); }
  }

  function Expect(s: string, c: char): (r: Parsed<()>)
    ensures r.Ok? ==> |r.rest| < |s|
  {
    if Starts(s, c) then Ok((), s[1..]) else Fail
  }

  /** A character followed by the rest of a string. */
  function Prepend(c: char, p: (string, string)): (string, string) {
    ([c] + p.0, p.1)
  }

  /** The characters up to the closing quote. A backslash stands for the character after it. */
  function StringBody(s: string): (r: (string, string))
    ensures |r.1| <= |s|
  {
    if s == [] || s[0] == '"' then ("", s)
    else if s[0] == '\\' && |s| > 1 then Prepend(s[1], StringBody(s[2..]))
    else Prepend(s[0], StringBody(s[1..]))
  }

  function ParseString(s: string): (r: Parsed<string>)
    ensures r.Ok? ==> |r.rest| < |s|
  {
    var (_, s1) :- Expect(s, '"');
    var (body, s2) := StringBody(s1);
    var (_, s3) :- Expect(s2, '"');
    Ok(body, s3)
  }

  function ParseBool(s: string): (r: Parsed<bool>)
    ensures r.Ok? ==> |r.rest| < |s|
  {
    if "true" <= s then Ok(true, s[4..])
    else if "false" <= s then Ok(false, s[5..])
    else Fail
  }

  function TakeDigits(s: string): (r: (string, string))
    ensures r.0 + r.1 == s
  {
    if s != [] && IsDigit(s[0]) then Prepend(s[0], TakeDigits(s[1..])) else ("", s)
  }

  function DigitsValue(ds: string): nat
    requires forall c :: c in ds ==> IsDigit(c)
  {
    if ds == [] then 0
    else
      var c := ds[|ds| - 1];
      assert c in ds && IsDigit(c);
      10 * DigitsValue(ds[..|ds| - 1]) + (c - '0') as nat
  }

  lemma {:induction false} TakeDigitsAreDigits(s: string)
    ensures forall c :: c in TakeDigits(s).0 ==> IsDigit(c)
    ensures TakeDigits(s).1 == [] || !IsDigit(TakeDigits(s).1[0])
  {
    if s != [] && IsDigit(s[0]) { TakeDigitsAreDigits(s[1..]); }
  }

  function Signed(negative: bool, n: nat): int {
    if negative then 0 - n else n
  }

  /** The conversion fails on a lone sign and outside 64 bits. */
  predicate InInt64(n: int) {
    -INT64_MAX - 1 <= n <= INT64_MAX
  }

  function ParseInt(s: string): (r: Parsed<int>)
    ensures r.Ok? ==> |r.rest| < |s|
  {
    var negative := Starts(s, '-');
    var (ds, rest) := TakeDigits(if negative then s[1..] else s);
    TakeDigitsAreDigits(if negative then s[1..] else s);
    if ds == [] then Fail
    else
      var n := Signed(negative, DigitsValue(ds));
      if InInt64(n) then Ok(n, rest) else Fail
  }

  // ---- structure -----------------------------------------------------------------------------

  /** From an item of a non-empty array to its closing bracket. */
  function ParseItems(s: string): (r: Parsed<seq<string>>)
    ensures r.Ok? ==> |r.rest| < |s|
    decreases |s|
  {
    var (item, s1) :- ParseString(s);
    var s2 := SkipSpace(s1);
    if Starts(s2, ',') then
      var (items, rest) :- ParseItems(SkipSpace(s2[1..]));
      Ok([item] + items, rest)
    else
      var (_, rest) :- Expect(s2, ']');
      Ok([item], rest)
  }

  function ParseStringArray(s: string): (r: Parsed<seq<string>>)
    ensures r.Ok? ==> |r.rest| < |s|
  {
    var (_, s1) :- Expect(s, '[');
    var s2 := SkipSpace(s1);
    if Starts(s2, ']') then Ok([], s2[1..]) else ParseItems(s2)
  }

  /** An unknown field's value is read and dropped. */
  function SkipValue(s: string): (r: Parsed<()>)
    ensures r.Ok? ==> |r.rest| < |s|
  {
    if s == [] then Fail
    else if s[0] == '"' then
      var (_, rest) :- ParseString(s);
      Ok((), rest)
    else if s[0] == '[' then
      var (_, rest) :- ParseStringArray(s);
      Ok((), rest)
    else if s[0] == 't' || s[0] == 'f' then
      var (_, rest) :- ParseBool(s);
      Ok((), rest)
    else
      var (_, rest) :- ParseInt(s);
      Ok((), rest)
  }

  /** A field's value, put into the entry. A timestamp given as a string is a placeholder. */
  function ParseValue(s: string, field: string, e: VersionsEntry): (r: Parsed<VersionsEntry>)
    ensures r.Ok? ==> |r.rest| < |s|
  {
    if field == "pe_timestamp" then
      if Starts(s, '"') then
        var (_, rest) :- ParseString(s);
        Ok(e.(peTimestamp := 0), rest)
      else
        var (n, rest) :- ParseInt(s);
        Ok(e.(peTimestamp := n % WORD32), rest)
    else if field == "text_sha256" then
      var (v, rest) :- ParseString(s);
      Ok(e.(textSha256 := v), rest)
    else if field == "tested" then
      var (b, rest) :- ParseBool(s);
      Ok(e.(tested := b), rest)
    else if field == "auto_disable" then
      var (v, rest) :- ParseStringArray(s);
      Ok(e.(autoDisable := v), rest)
    else
      var (_, rest) :- SkipValue(s);
      Ok(e, rest)
  }

  /** The fields up to the closing brace. */
  function ParseFields(s: string, e: VersionsEntry, first: bool): (r: Parsed<VersionsEntry>)
    ensures r.Ok? ==> |r.rest| < |s|
    decreases |s|
  {
    if s == [] then Fail
    else if s[0] == '}' then Ok(e, s[1..])
    else if !first && s[0] != ',' then Fail
    else
      var s1 := if first then s else SkipSpace(s[1..]);
      var (field, s2) :- ParseString(s1);
      var (_, s3) :- Expect(SkipSpace(s2), ':');
      var (e', s4) :- ParseValue(SkipSpace(s3), field, e);
      ParseFields(SkipSpace(s4), e', false)
  }

  function NewEntry(version: string): VersionsEntry {
    VersionsEntry(version, 0, "", false, [])
  }

  function ParseEntry(s: string, version: string): (r: Parsed<VersionsEntry>)
    ensures r.Ok? ==> |r.rest| < |s|
  {
    var (_, s1) :- Expect(s, '{');
    ParseFields(SkipSpace(s1), NewEntry(version), true)
  }

  /** A version and its entry. */
  function ParseKeyed(s: string): (r: Parsed<VersionsEntry>)
    ensures r.Ok? ==> |r.rest| < |s|
  {
    var (key, s1) :- ParseString(s);
    var (_, s2) :- Expect(SkipSpace(s1), ':');
    ParseEntry(SkipSpace(s2), key)
  }

  /** From an entry of a non-empty file to its closing brace. */
  function ParseEntries(s: string): (r: Parsed<seq<VersionsEntry>>)
    ensures r.Ok? ==> |r.rest| < |s|
    decreases |s|
  {
    var (e, s3) :- ParseKeyed(s);
    var s4 := SkipSpace(s3);
    if Starts(s4, ',') then
      var (es, rest) :- ParseEntries(SkipSpace(s4[1..]));
      Ok([e] + es, rest)
    else
      var (_, rest) :- Expect(s4, '}');
      Ok([e], rest)
  }

  /** The whole file; what follows the closing brace is not looked at. */
  function Parse(s: string): (r: Parsed<seq<VersionsEntry>>) {
    var (_, s1) :- Expect(SkipSpace(s), '{');
    var s2 := SkipSpace(s1);
    if Starts(s2, '}') then Ok([], s2[1..]) else ParseEntries(s2)
  }

  /** Entries not filled in yet are dropped. */
  predicate Placeholder(e: VersionsEntry) {
    e.peTimestamp == 0 && "PENDING_" <= e.textSha256
  }

  function Usable(es: seq<VersionsEntry>): seq<VersionsEntry> {
    if es == [] then [] else (if Placeholder(es[0]) then [] else [es[0]]) + Usable(es[1..])
  }

  /** A load keeps the entries in order and leaves out exactly those without a timestamp whose hash is
      still to be filled in. */
  lemma {:induction false} UsableIsExact(a: seq<VersionsEntry>, e: VersionsEntry, b: seq<VersionsEntry>)
    ensures var waiting := e.peTimestamp == 0 && |e.textSha256| >= 8 && e.textSha256[..8] == "PENDING_";
            Usable(a + [e] + b) == Usable(a) + (if waiting then [] else [e]) + Usable(b)
  {
    if a == [] {
      assert a + [e] + b == [e] + b && ([e] + b)[1..] == b;
      assert "PENDING_" <= e.textSha256 <==> |e.textSha256| >= 8 && e.textSha256[..8] == "PENDING_";
    } else {
      assert (a + [e] + b)[1..] == a[1..] + [e] + b;
      UsableIsExact(a[1..], e, b);
    }
  }

  function Load(s: string): Option<seq<VersionsEntry>> {
    match Parse(s)
    case Fail => None
    case Ok(es, _) => Some(Usable(es))
  }

  // ---- written files -------------------------------------------------------------------------

  /** A character of a string literal. Quotes and backslashes must be escaped, others may be. */
  datatype Piece = Piece(c: char, escaped: bool)

  predicate PieceOk(p: Piece) {
    p.escaped || (p.c != '"' && p.c != '\\')
  }

  predicate Quotable(q: seq<Piece>) {
    forall p :: p in q ==> PieceOk(p)
  }

  function Content(q: seq<Piece>): string {
    if q == [] then "" else [q[0].c] + Content(q[1..])
  }

  function PiecesText(q: seq<Piece>): string {
    if q == [] then "" else (if q[0].escaped then ['\\', q[0].c] else [q[0].c]) + PiecesText(q[1..])
  }

  function QuotedText(q: seq<Piece>): string {
    "\"" + (PiecesText(q) + "\"")
  }

  predicate Blank(w: string) {
    forall c :: c in w ==> IsSpace(c)
  }

  /** An array item: the string, the space after it, and the space after the comma, if one follows. */
  datatype ItemDoc = ItemDoc(text: seq<Piece>, after: string, next: string)

  datatype ValueDoc =
    | StringDoc(text: seq<Piece>)
    | BoolDoc(flag: bool)
    | IntDoc(negative: bool, digits: string)
    | ArrayDoc(open: string, items: seq<ItemDoc>)

  datatype FieldDoc = FieldDoc(name: seq<Piece>, beforeColon: string, afterColon: string, value: ValueDoc,
                               after: string, next: string)

  datatype EntryDoc = EntryDoc(key: seq<Piece>, beforeColon: string, afterColon: string, open: string,
                               fields: seq<FieldDoc>, after: string, next: string)

  /** A file: the space before and after its opening brace, and its entries. */
  datatype FileDoc = FileDoc(lead: string, open: string, entries: seq<EntryDoc>)

  predicate ItemOk(i: ItemDoc) {
    Quotable(i.text) && Blank(i.after) && Blank(i.next)
  }

  predicate ValueOk(v: ValueDoc) {
    match v
    case StringDoc(q) => Quotable(q)
    case BoolDoc(_) => true
    case IntDoc(negative, ds) =>
      ds != [] && (forall c :: c in ds ==> IsDigit(c)) && InInt64(Signed(negative, DigitsValue(ds)))
    case ArrayDoc(open, items) => Blank(open) && forall i :: i in items ==> ItemOk(i)
  }

  /** The fields the reader knows must have a value of their kind. */
  predicate KindOk(name: string, v: ValueDoc) {
    && (name == "pe_timestamp" ==> v.IntDoc? || v.StringDoc?)
    && (name == "text_sha256" ==> v.StringDoc?)
    && (name == "tested" ==> v.BoolDoc?)
    && (name == "auto_disable" ==> v.ArrayDoc?)
  }

  predicate FieldOk(f: FieldDoc) {
    && Quotable(f.name) && Blank(f.beforeColon) && Blank(f.afterColon) && Blank(f.after) && Blank(f.next)
    && ValueOk(f.value) && KindOk(Content(f.name), f.value)
  }

  predicate EntryOk(e: EntryDoc) {
    && Quotable(e.key) && Blank(e.beforeColon) && Blank(e.afterColon)
    && Blank(e.open) && Blank(e.after) && Blank(e.next)
    && forall f :: f in e.fields ==> FieldOk(f)
  }

  predicate FileOk(d: FileDoc) {
    Blank(d.lead) && Blank(d.open) && forall e :: e in d.entries ==> EntryOk(e)
  }

  /** The text of each, followed by rest. */
  function ItemsText(items: seq<ItemDoc>, rest: string): string
    requires items != []
  {
    var i := items[0];
    QuotedText(i.text) + (i.after + if |items| == 1 then "]" + rest else "," + (i.next + ItemsText(items[1..], rest)))
  }

  function ValueText(v: ValueDoc, rest: string): string {
    match v
    case StringDoc(q) => QuotedText(q) + rest
    case BoolDoc(b) => (if b then "true" else "false") + rest
    case IntDoc(negative, ds) => (if negative then "-" else "") + (ds + rest)
    case ArrayDoc(open, items) => "[" + (open + if items == [] then "]" + rest else ItemsText(items, rest))
  }

  function FieldsText(fields: seq<FieldDoc>, rest: string): string {
    if fields == [] then "}" + rest
    else
      var f := fields[0];
      QuotedText(f.name) + (f.beforeColon + (":" + (f.afterColon + ValueText(f.value, f.after +
        if |fields| == 1 then "}" + rest else "," + (f.next + FieldsText(fields[1..], rest))))))
  }

  function EntriesText(es: seq<EntryDoc>, rest: string): string
    requires es != []
  {
    var e := es[0];
    QuotedText(e.key) + (e.beforeColon + (":" + (e.afterColon + ("{" + (e.open + FieldsText(e.fields, e.after +
      if |es| == 1 then "}" + rest else "," + (e.next + EntriesText(es[1..], rest))))))))
  }

  function FileText(d: FileDoc, rest: string): string {
    d.lead + ("{" + (d.open + if d.entries == [] then "}" + rest else EntriesText(d.entries, rest)))
  }

  // ---- what a file means ---------------------------------------------------------------------

  function Items(items: seq<ItemDoc>): seq<string> {
    if items == [] then [] else [Content(items[0].text)] + Items(items[1..])
  }

  /** A field's effect on its entry; of fields given twice the later one stays. */
  function Apply(e: VersionsEntry, f: FieldDoc): VersionsEntry
    requires FieldOk(f)
  {
    var name := Content(f.name);
    if name == "pe_timestamp" then
      e.(peTimestamp := if f.value.IntDoc? then Signed(f.value.negative, DigitsValue(f.value.digits)) % WORD32 else 0)
    else if name == "text_sha256" then e.(textSha256 := Content(f.value.text))
    else if name == "tested" then e.(tested := f.value.flag)
    else if name == "auto_disable" then e.(autoDisable := Items(f.value.items))
    else e
  }

  function ApplyAll(e: VersionsEntry, fs: seq<FieldDoc>): VersionsEntry
    requires forall f :: f in fs ==> FieldOk(f)
    decreases |fs|
  {
    if fs == [] then e else ApplyAll(Apply(e, fs[0]), fs[1..])
  }

  function EntryMeaning(e: EntryDoc): VersionsEntry
    requires EntryOk(e)
  {
    ApplyAll(NewEntry(Content(e.key)), e.fields)
  }

  function Meaning(es: seq<EntryDoc>): seq<VersionsEntry>
    requires forall e :: e in es ==> EntryOk(e)
  {
    if es == [] then [] else [EntryMeaning(es[0])] + Meaning(es[1..])
  }

  // ---- the reader understands every written file ---------------------------------------------

  lemma {:induction false} SkipBlank(w: string, rest: string)
    requires Blank(w) && (rest == [] || !IsSpace(rest[0]))
    ensures SkipSpace(w + rest) == rest
  {
    if w == [] {
      assert w + rest == rest;
    } else {
      assert (w + rest)[1..] == w[1..] + rest;
      SkipBlank(w[1..], rest);
    }
  }

  lemma {:induction false} ReadPieces(q: seq<Piece>, rest: string)
    requires Quotable(q)
    ensures StringBody(PiecesText(q) + ("\"" + rest)) == (Content(q), "\"" + rest)
  {
    var s := PiecesText(q) + ("\"" + rest);
    if q == [] {
      assert s == "\"" + rest;
    } else {
      var tail := PiecesText(q[1..]) + ("\"" + rest);
      assert PieceOk(q[0]);
      if q[0].escaped {
        assert s == ['\\', q[0].c] + tail;
        assert s[2..] == tail;
      } else {
        assert s == [q[0].c] + tail;
        assert s[1..] == tail;
      }
      ReadPieces(q[1..], rest);
    }
  }

  lemma ReadQuoted(q: seq<Piece>, rest: string)
    requires Quotable(q)
    ensures ParseString(QuotedText(q) + rest) == Ok(Content(q), rest)
    ensures Starts(QuotedText(q) + rest, '"')
  {
    var s := QuotedText(q) + rest;
    assert s[1..] == PiecesText(q) + ("\"" + rest);
    ReadPieces(q, rest);
    assert ("\"" + rest)[1..] == rest;
  }

  lemma {:induction false} ReadDigits(ds: string, rest: string)
    requires (forall c :: c in ds ==> IsDigit(c)) && (rest == [] || !IsDigit(rest[0]))
    ensures TakeDigits(ds + rest) == (ds, rest)
  {
    if ds == [] {
      assert ds + rest == rest;
    } else {
      assert (ds + rest)[1..] == ds[1..] + rest;
      ReadDigits(ds[1..], rest);
      assert [ds[0]] + ds[1..] == ds;
    }
  }

  lemma Peel(c: char, rest: string)
    ensures Starts([c] + rest, c) && ([c] + rest)[1..] == rest && Expect([c] + rest, c) == Ok((), rest)
    ensures forall d: char :: d != c ==> !Starts([c] + rest, d)
  {
  }

  lemma {:induction false} ReadItems(items: seq<ItemDoc>, rest: string)
    requires items != [] && forall i :: i in items ==> ItemOk(i)
    ensures ParseItems(ItemsText(items, rest)) == Ok(Items(items), rest)
    decreases |items|
  {
    hide QuotedText, ParseString, SkipSpace, Expect, Starts;
    var i := items[0];
    assert ItemOk(i);
    if |items| == 1 {
      ReadQuoted(i.text, i.after + ("]" + rest));
      Peel(']', rest);
      SkipBlank(i.after, "]" + rest);
      assert Items(items) == [Content(i.text)];
    } else {
      var more := ItemsText(items[1..], rest);
      ReadQuoted(i.text, i.after + ("," + (i.next + more)));
      Peel(',', i.next + more);
      SkipBlank(i.after, "," + (i.next + more));
      ItemsStart(items[1..], rest);
      SkipBlank(i.next, more);
      ReadItems(items[1..], rest);
    }
  }

  lemma ItemsStart(items: seq<ItemDoc>, rest: string)
    requires items != []
    ensures Starts(ItemsText(items, rest), '"') && ItemsText(items, rest)[0] == '"' && !IsSpace('"')
  {
  }

  lemma ReadArray(open: string, items: seq<ItemDoc>, rest: string)
    requires ValueOk(ArrayDoc(open, items))
    ensures ParseStringArray(ValueText(ArrayDoc(open, items), rest)) == Ok(Items(items), rest)
    ensures Starts(ValueText(ArrayDoc(open, items), rest), '[')
  {
    hide SkipSpace, ParseItems, ItemsText;
    if items == [] {
      Peel('[', open + ("]" + rest));
      Peel(']', rest);
      SkipBlank(open, "]" + rest);
    } else {
      var more := ItemsText(items, rest);
      Peel('[', open + more);
      ItemsStart(items, rest);
      SkipBlank(open, more);
      ReadItems(items, rest);
    }
  }

  lemma ReadBool(b: bool, rest: string)
    ensures ParseBool(ValueText(BoolDoc(b), rest)) == Ok(b, rest)
    ensures Starts(ValueText(BoolDoc(b), rest), if b then 't' else 'f')
  {
    var s := ValueText(BoolDoc(b), rest);
    if b {
      assert s[..4] == "true" && s[4..] == rest;
    } else {
      assert s[..5] == "false" && s[5..] == rest && s[0] != 't';
    }
  }

  lemma ReadInt(negative: bool, ds: string, rest: string)
    requires ValueOk(IntDoc(negative, ds)) && (rest == [] || !IsDigit(rest[0]))
    ensures ParseInt(ValueText(IntDoc(negative, ds), rest)) == Ok(Signed(negative, DigitsValue(ds)), rest)
    ensures var s := ValueText(IntDoc(negative, ds), rest); s != [] && (s[0] == '-' || IsDigit(s[0]))
  {
    hide DigitsValue, TakeDigits;
    var s := ValueText(IntDoc(negative, ds), rest);
    assert ds[0] in ds;
    if negative {
      assert s == "-" + (ds + rest) && s[1..] == ds + rest;
    } else {
      assert s == ds + rest && s[0] == ds[0];
    }
    ReadDigits(ds, rest);
  }

  lemma ReadValue(f: FieldDoc, e: VersionsEntry, rest: string)
    requires FieldOk(f) && (rest == [] || !IsDigit(rest[0]))
    ensures ParseValue(ValueText(f.value, rest), Content(f.name), e) == Ok(Apply(e, f), rest)
    ensures ValueText(f.value, rest) != [] && !IsSpace(ValueText(f.value, rest)[0])
  {
    hide ParseString, ParseStringArray, ParseBool, ParseInt, Content, ValueText, QuotedText, DigitsValue, Items;
    match f.value
    case StringDoc(q) =>
      ReadQuoted(q, rest);
      StringValueText(q, rest);
    case BoolDoc(b) => ReadBool(b, rest);
    case IntDoc(negative, ds) => ReadInt(negative, ds, rest);
    case ArrayDoc(open, items) => ReadArray(open, items, rest);
  }

  lemma StringValueText(q: seq<Piece>, rest: string)
    ensures ValueText(StringDoc(q), rest) == QuotedText(q) + rest
  {
  }

  /** What follows a value: space, a comma or a brace, so no digit. */
  lemma AfterValue(after: string, c: char, more: string)
    requires Blank(after) && (c == ',' || c == '}')
    ensures var s := after + ([c] + more); s != [] && !IsDigit(s[0])
    ensures SkipSpace(after + ([c] + more)) == [c] + more
  {
    var s := after + ([c] + more);
    if after == [] { assert s == [c] + more; } else { assert s[0] == after[0] && after[0] in after; }
    SkipBlank(after, [c] + more);
  }

  /** A field up to the end of its value. */
  lemma ReadFieldHead(f: FieldDoc, e: VersionsEntry, tail: string)
    requires FieldOk(f) && tail != [] && !IsDigit(tail[0])
    ensures var s := QuotedText(f.name) + (f.beforeColon + (":" + (f.afterColon + ValueText(f.value, tail))));
            var p2 := ParseString(s);
            && Starts(s, '"') && p2.Ok? && p2.value == Content(f.name)
            && var p3 := Expect(SkipSpace(p2.rest), ':');
            && p3.Ok? && ParseValue(SkipSpace(p3.rest), p2.value, e) == Ok(Apply(e, f), tail)
  {
    hide ParseValue, Apply, ValueText, QuotedText, ParseString, SkipSpace, Content;
    var value := ValueText(f.value, tail);
    ReadQuoted(f.name, f.beforeColon + (":" + (f.afterColon + value)));
    Peel(':', f.afterColon + value);
    SkipBlank(f.beforeColon, ":" + (f.afterColon + value));
    ReadValue(f, e, tail);
    SkipBlank(f.afterColon, value);
  }

  lemma FieldsStart(fields: seq<FieldDoc>, rest: string)
    ensures var s := FieldsText(fields, rest); s != [] && !IsSpace(s[0]) && s[0] == if fields == [] then '}' else '"'
  {
  }

  /** The fields after the first, with the comma before them. */
  function MoreFieldsText(next: string, fields: seq<FieldDoc>, rest: string): string {
    if fields == [] then "}" + rest else "," + (next + FieldsText(fields, rest))
  }

  lemma {:induction false} ReadFields(next: string, fields: seq<FieldDoc>, e: VersionsEntry, rest: string, first: bool)
    requires Blank(next) && forall f :: f in fields ==> FieldOk(f)
    ensures ParseFields(if first then FieldsText(fields, rest) else MoreFieldsText(next, fields, rest), e, first)
         == Ok(ApplyAll(e, fields), rest)
    decreases |fields|
  {
    hide ParseValue, Apply, ValueText, QuotedText, ParseString, SkipSpace, Content, Expect, Starts;
    FieldsStart(fields, rest);
    if fields == [] {
      Peel('}', rest);
    } else {
      var f := fields[0];
      assert FieldOk(f);
      var more := MoreFieldsText(f.next, fields[1..], rest);
      var tail := f.after + more;
      var text := FieldsText(fields, rest);
      FieldsUnfold(fields, rest);
      if |fields| == 1 {
        AfterValue(f.after, '}', rest);
      } else {
        AfterValue(f.after, ',', f.next + FieldsText(fields[1..], rest));
      }
      if !first {
        Peel(',', next + text);
        SkipBlank(next, text);
      }
      ReadFieldHead(f, e, tail);
      ReadFields(f.next, fields[1..], Apply(e, f), rest, false);
    }
  }

  lemma FieldsUnfold(fields: seq<FieldDoc>, rest: string)
    requires fields != []
    ensures var f := fields[0];
            FieldsText(fields, rest) ==
              QuotedText(f.name) + (f.beforeColon + (":" + (f.afterColon +
                ValueText(f.value, f.after + MoreFieldsText(f.next, fields[1..], rest)))))
    ensures MoreFieldsText(fields[0].next, fields[1..], rest) ==
              if |fields| == 1 then "}" + rest else "," + (fields[0].next + FieldsText(fields[1..], rest))
  {
    hide ValueText, QuotedText;
  }

  lemma EntriesStart(es: seq<EntryDoc>, rest: string)
    requires es != []
    ensures var s := EntriesText(es, rest); s != [] && s[0] == '"' && !IsSpace('"') && Starts(s, '"') && !Starts(s, '}')
  {
    hide FieldsText;
  }

  lemma {:induction false} ReadEntries(es: seq<EntryDoc>, rest: string)
    requires es != [] && forall e :: e in es ==> EntryOk(e)
    ensures ParseEntries(EntriesText(es, rest)) == Ok(Meaning(es), rest)
    decreases |es|
  {
    hide FieldsText, QuotedText, ParseString, SkipSpace, Content, ParseFields, Expect, Starts, ApplyAll;
    var e := es[0];
    assert EntryOk(e);
    var more := if |es| == 1 then "}" + rest else "," + (e.next + EntriesText(es[1..], rest));
    var fields := FieldsText(e.fields, e.after + more);
    ReadQuoted(e.key, e.beforeColon + (":" + (e.afterColon + ("{" + (e.open + fields)))));
    Peel(':', e.afterColon + ("{" + (e.open + fields)));
    SkipBlank(e.beforeColon, ":" + (e.afterColon + ("{" + (e.open + fields))));
    Peel('{', e.open + fields);
    SkipBlank(e.afterColon, "{" + (e.open + fields));
    FieldsStart(e.fields, e.after + more);
    SkipBlank(e.open, fields);
    ReadFields("", e.fields, NewEntry(Content(e.key)), e.after + more, true);
    if |es| == 1 {
      Peel('}', rest);
      AfterValue(e.after, '}', rest);
      MeaningOfOne(es);
    } else {
      var others := EntriesText(es[1..], rest);
      Peel(',', e.next + others);
      AfterValue(e.after, ',', e.next + others);
      EntriesStart(es[1..], rest);
      SkipBlank(e.next, others);
      ReadEntries(es[1..], rest);
    }
  }

  lemma MeaningOfOne(es: seq<EntryDoc>)
    requires |es| == 1 && EntryOk(es[0])
    ensures Meaning(es) == [EntryMeaning(es[0])]
  {
  }

  /** The reader understands every written file, whatever its white space, escapes, field order and
      unknown fields, and whatever follows it. */
  lemma ReadFile(d: FileDoc, rest: string)
    requires FileOk(d)
    ensures Parse(FileText(d, rest)) == Ok(Meaning(d.entries), rest)
  {
    hide SkipSpace, ParseEntries, EntriesText, Expect, Starts;
    if d.entries == [] {
      Peel('{', d.open + ("}" + rest));
      SkipBlank(d.lead, "{" + (d.open + ("}" + rest)));
      Peel('}', rest);
      SkipBlank(d.open, "}" + rest);
    } else {
      var more := EntriesText(d.entries, rest);
      Peel('{', d.open + more);
      SkipBlank(d.lead, "{" + (d.open + more));
      EntriesStart(d.entries, rest);
      SkipBlank(d.open, more);
      ReadEntries(d.entries, rest);
    }
  }

  // ---- only written files are accepted -------------------------------------------------------

  lemma {:induction false} SpaceSkipped(s: string) returns (w: string)
    ensures Blank(w) && s == w + SkipSpace(s)
  {
    if s != [] && IsSpace(s[0]) {
      var w' := SpaceSkipped(s[1..]);
      w := [s[0]] + w';
    } else {
      w := [];
    }
  }

  /** The literal's body ends here. */
  ghost predicate EndsHere(s: string)
    ensures EndsHere(s) ==> StringBody(s) == ("", s)
    ensures !EndsHere(s) ==> s != [] && s[0] != '"'
  {
    s == [] || s[0] == '"'
  }

  /** One character of a literal that is not its end. */
  lemma PieceRead(s: string) returns (p: Piece, tail: string)
    requires s != [] && s[0] != '"' && StringBody(s).1 != []
    ensures |tail| < |s| && PieceOk(p) && StringBody(s) == Prepend(p.c, StringBody(tail))
    ensures s == (if p.escaped then ['\\', p.c] else [p.c]) + tail
  {
    if s[0] == '\\' && |s| > 1 {
      p, tail := Piece(s[1], true), s[2..];
      assert s == [s[0], s[1]] + s[2..];
    } else {
      p, tail := Piece(s[0], false), s[1..];
    }
  }

  lemma {:induction false} PiecesRead(s: string) returns (q: seq<Piece>)
    requires StringBody(s).1 != []
    ensures Quotable(q) && StringBody(s).0 == Content(q) && s == PiecesText(q) + StringBody(s).1
    decreases |s|
  {
    hide StringBody;
    if EndsHere(s) {
      q := [];
    } else {
      var p, tail := PieceRead(s);
      var q' := PiecesRead(tail);
      q := [p] + q';
      assert q[1..] == q';
    }
  }

  lemma QuotedRead(s: string) returns (q: seq<Piece>)
    requires ParseString(s).Ok?
    ensures Quotable(q) && ParseString(s).value == Content(q) && s == QuotedText(q) + ParseString(s).rest
  {
    hide Content, PiecesText, StringBody;
    q := PiecesRead(s[1..]);
    var rest := ParseString(s).rest;
    assert s == "\"" + s[1..];
    assert StringBody(s[1..]).1 == "\"" + rest;
  }

  lemma ExpectRead(s: string, c: char)
    ensures Expect(s, c).Ok? ==> s == [c] + Expect(s, c).rest
    ensures Starts(s, c) ==> s == [c] + s[1..]
  {
  }

  lemma {:induction false} ItemsRead(s: string) returns (items: seq<ItemDoc>)
    requires ParseItems(s).Ok?
    ensures items != [] && (forall i :: i in items ==> ItemOk(i))
    ensures ParseItems(s).value == Items(items) && s == ItemsText(items, ParseItems(s).rest)
    decreases |s|
  {
    hide QuotedText, ParseString, SkipSpace, Expect, Starts, Content;
    var q := QuotedRead(s);
    var s1 := ParseString(s).rest;
    var s2 := SkipSpace(s1);
    var after := SpaceSkipped(s1);
    ExpectRead(s2, ',');
    ExpectRead(s2, ']');
    if Starts(s2, ',') {
      var next := SpaceSkipped(s2[1..]);
      var others := ItemsRead(SkipSpace(s2[1..]));
      items := [ItemDoc(q, after, next)] + others;
      assert items[1..] == others;
    } else {
      items := [ItemDoc(q, after, "")];
      assert items[1..] == [];
    }
  }

  lemma ArrayRead(s: string) returns (open: string, items: seq<ItemDoc>)
    requires ParseStringArray(s).Ok?
    ensures ValueOk(ArrayDoc(open, items)) && ParseStringArray(s).value == Items(items)
    ensures s == ValueText(ArrayDoc(open, items), ParseStringArray(s).rest)
  {
    hide ParseItems, SkipSpace, Expect, Starts, ItemsText, ItemOk;
    var s1 := Expect(s, '[').rest;
    var s2 := SkipSpace(s1);
    ExpectRead(s, '[');
    open := SpaceSkipped(s1);
    ExpectRead(s2, ']');
    if Starts(s2, ']') {
      items := [];
    } else {
      items := ItemsRead(s2);
    }
  }

  lemma BoolRead(s: string)
    requires ParseBool(s).Ok?
    ensures s == ValueText(BoolDoc(ParseBool(s).value), ParseBool(s).rest)
  {
    assert "true" <= s ==> s[..4] == "true";
    assert "false" <= s ==> s[..5] == "false";
  }

  lemma IntRead(s: string) returns (negative: bool, ds: string)
    requires ParseInt(s).Ok?
    ensures ValueOk(IntDoc(negative, ds)) && ParseInt(s).value == Signed(negative, DigitsValue(ds))
    ensures s == ValueText(IntDoc(negative, ds), ParseInt(s).rest)
  {
    hide TakeDigits, DigitsValue;
    negative := Starts(s, '-');
    var t := if negative then s[1..] else s;
    TakeDigitsAreDigits(t);
    ds := TakeDigits(t).0;
    assert s == (if negative then "-" else "") + t;
  }

  lemma SkippedRead(s: string) returns (v: ValueDoc)
    requires SkipValue(s).Ok?
    ensures ValueOk(v) && s == ValueText(v, SkipValue(s).rest)
  {
    hide ParseString, ParseStringArray, ParseBool, ParseInt, QuotedText, ValueText, ValueOk;
    if s[0] == '"' {
      v := StringValueRead(s);
    } else if s[0] == '[' {
      var open, items := ArrayRead(s);
      v := ArrayDoc(open, items);
    } else if s[0] == 't' || s[0] == 'f' {
      BoolRead(s);
      v := BoolDoc(ParseBool(s).value);
      BoolIsOk(ParseBool(s).value);
    } else {
      var negative, ds := IntRead(s);
      v := IntDoc(negative, ds);
    }
  }

  lemma BoolIsOk(b: bool)
    ensures ValueOk(BoolDoc(b))
  {
  }

  lemma StringValueRead(s: string) returns (v: ValueDoc)
    requires ParseString(s).Ok?
    ensures v.StringDoc? && ValueOk(v) && ParseString(s).value == Content(v.text)
    ensures s == ValueText(v, ParseString(s).rest)
  {
    hide ParseString, QuotedText, Content;
    var q := QuotedRead(s);
    v := StringDoc(q);
  }

  lemma ValueRead(s: string, name: seq<Piece>, e: VersionsEntry) returns (f: FieldDoc)
    requires ParseValue(s, Content(name), e).Ok? && Quotable(name)
    ensures f.name == name && FieldOk(f) && f.beforeColon == f.afterColon == f.after == f.next == ""
    ensures ParseValue(s, Content(name), e).value == Apply(e, f)
    ensures s == ValueText(f.value, ParseValue(s, Content(name), e).rest)
  {
    hide ParseString, ParseStringArray, ParseBool, ParseInt, SkipValue, QuotedText, ValueText, ValueOk, Content,
         Quotable, DigitsValue, Items;
    var v: ValueDoc;
    var field := Content(name);
    if field == "pe_timestamp" {
      if Starts(s, '"') {
        v := StringValueRead(s);
      } else {
        var negative, ds := IntRead(s);
        v := IntDoc(negative, ds);
      }
    } else if field == "text_sha256" {
      v := StringValueRead(s);
    } else if field == "tested" {
      BoolRead(s);
      v := BoolDoc(ParseBool(s).value);
      BoolIsOk(ParseBool(s).value);
    } else if field == "auto_disable" {
      var open, items := ArrayRead(s);
      v := ArrayDoc(open, items);
    } else {
      v := SkippedRead(s);
    }
    f := FieldDoc(name, "", "", v, "", "");
  }

  lemma {:induction false} FieldsRead(s: string, e: VersionsEntry, first: bool)
      returns (next: string, fields: seq<FieldDoc>)
    requires ParseFields(s, e, first).Ok?
    ensures Blank(next) && (forall f :: f in fields ==> FieldOk(f))
    ensures ParseFields(s, e, first).value == ApplyAll(e, fields)
    ensures s == if first then FieldsText(fields, ParseFields(s, e, first).rest)
                 else MoreFieldsText(next, fields, ParseFields(s, e, first).rest)
    decreases |s|
  {
    hide ParseString, ParseValue, SkipSpace, Expect, Starts, ValueText, QuotedText, Content, Apply, FieldsText;
    var rest := ParseFields(s, e, first).rest;
    if s[0] == '}' {
      assert s == "}" + s[1..];
      next, fields := "", [];
      NoFieldsText(rest);
    } else {
      var s1 := if first then s else SkipSpace(s[1..]);
      if first {
        next := "";
      } else {
        next := SpaceSkipped(s[1..]);
        assert s == "," + s[1..];
      }
      var s4, f := FieldRead(s1, e);
      var after := SpaceSkipped(s4);
      var next', fields' := FieldsRead(SkipSpace(s4), Apply(e, f), false);
      var f' := f.(after := after, next := next');
      ApplyIgnoresSpace(e, f, f');
      fields := [f'] + fields';
      assert fields[1..] == fields';
      FieldsUnfold(fields, rest);
    }
  }

  lemma NoFieldsText(rest: string)
    ensures FieldsText([], rest) == "}" + rest
  {
  }

  lemma ApplyIgnoresSpace(e: VersionsEntry, f: FieldDoc, f': FieldDoc)
    requires FieldOk(f) && f'.name == f.name && f'.value == f.value
    requires Blank(f'.beforeColon) && Blank(f'.afterColon) && Blank(f'.after) && Blank(f'.next)
    ensures FieldOk(f') && Apply(e, f') == Apply(e, f)
  {
    hide ValueOk, Content, Quotable, DigitsValue, Items;
  }

  /** One field, up to the end of its value. */
  lemma FieldRead(s: string, e: VersionsEntry) returns (tail: string, f: FieldDoc)
    requires ParseString(s).Ok? && var p := Expect(SkipSpace(ParseString(s).rest), ':');
             p.Ok? && ParseValue(SkipSpace(p.rest), ParseString(s).value, e).Ok?
    ensures FieldOk(f) && f.after == f.next == ""
    ensures var p := Expect(SkipSpace(ParseString(s).rest), ':');
            ParseValue(SkipSpace(p.rest), ParseString(s).value, e) == Ok(Apply(e, f), tail)
    ensures s == QuotedText(f.name) + (f.beforeColon + (":" + (f.afterColon + ValueText(f.value, tail))))
  {
    hide ParseString, ParseValue, SkipSpace, Expect, Starts, ValueText, QuotedText, Content, Apply;
    var s2 := ParseString(s).rest;
    var p := Expect(SkipSpace(s2), ':');
    var name := QuotedRead(s);
    var beforeColon := SpaceSkipped(s2);
    ExpectRead(SkipSpace(s2), ':');
    var afterColon := SpaceSkipped(p.rest);
    var g := ValueRead(SkipSpace(p.rest), name, e);
    tail := ParseValue(SkipSpace(p.rest), ParseString(s).value, e).rest;
    f := g.(beforeColon := beforeColon, afterColon := afterColon);
    ApplyIgnoresSpace(e, g, f);
  }

  lemma {:induction false} EntriesRead(s: string) returns (es: seq<EntryDoc>)
    requires ParseEntries(s).Ok?
    ensures es != [] && (forall e :: e in es ==> EntryOk(e))
    ensures ParseEntries(s).value == Meaning(es) && s == EntriesText(es, ParseEntries(s).rest)
    decreases |s|
  {
    hide ParseKeyed, SkipSpace, Expect, Starts, QuotedText, Content, EntryMeaning, FieldsText;
    var rest := ParseEntries(s).rest;
    var s3, d := EntryRead(s);
    var s4 := SkipSpace(s3);
    var after := SpaceSkipped(s3);
    ExpectRead(s4, ',');
    ExpectRead(s4, '}');
    if Starts(s4, ',') {
      var next := SpaceSkipped(s4[1..]);
      var others := EntriesRead(SkipSpace(s4[1..]));
      var d' := d.(after := after, next := next);
      es := [d'] + others;
      assert es[1..] == others;
      MeaningIgnoresSpace(d, d');
    } else {
      var d' := d.(after := after);
      es := [d'];
      MeaningIgnoresSpace(d, d');
      MeaningOfOne(es);
    }
  }

  lemma MeaningIgnoresSpace(d: EntryDoc, d': EntryDoc)
    requires EntryOk(d) && d'.key == d.key && d'.fields == d.fields
    requires Blank(d'.beforeColon) && Blank(d'.afterColon) && Blank(d'.open) && Blank(d'.after) && Blank(d'.next)
    ensures EntryOk(d') && EntryMeaning(d') == EntryMeaning(d)
  {
    hide FieldOk, Content, Quotable, ApplyAll;
  }

  /** One entry, up to its closing brace. */
  lemma EntryRead(s: string) returns (tail: string, d: EntryDoc)
    requires ParseKeyed(s).Ok?
    ensures EntryOk(d) && d.after == d.next == "" && ParseKeyed(s) == Ok(EntryMeaning(d), tail)
    ensures s == QuotedText(d.key) +
                   (d.beforeColon + (":" + (d.afterColon + ("{" + (d.open + FieldsText(d.fields, tail))))))
  {
    hide ParseString, ParseFields, SkipSpace, Expect, Starts, QuotedText, Content, ApplyAll, FieldsText;
    var s2 := ParseString(s).rest;
    var p := Expect(SkipSpace(s2), ':');
    var s3 := SkipSpace(p.rest);
    var key := QuotedRead(s);
    var beforeColon := SpaceSkipped(s2);
    ExpectRead(SkipSpace(s2), ':');
    var afterColon := SpaceSkipped(p.rest);
    ExpectRead(s3, '{');
    var s4 := Expect(s3, '{').rest;
    var open := SpaceSkipped(s4);
    var next, fields := FieldsRead(SkipSpace(s4), NewEntry(Content(key)), true);
    tail := ParseEntry(s3, ParseString(s).value).rest;
    d := EntryDoc(key, beforeColon, afterColon, open, fields, "", "");
  }

  /** The reader accepts nothing but written files, and returns what they mean. */
  lemma FileRead(s: string) returns (d: FileDoc)
    requires Parse(s).Ok?
    ensures FileOk(d) && Parse(s).value == Meaning(d.entries) && s == FileText(d, Parse(s).rest)
  {
    hide SkipSpace, ParseEntries, EntriesText, Expect, Starts;
    var lead := SpaceSkipped(s);
    var s0 := SkipSpace(s);
    ExpectRead(s0, '{');
    var s1 := Expect(s0, '{').rest;
    var open := SpaceSkipped(s1);
    var s2 := SkipSpace(s1);
    ExpectRead(s2, '}');
    if Starts(s2, '}') {
      d := FileDoc(lead, open, []);
    } else {
      var es := EntriesRead(s2);
      d := FileDoc(lead, open, es);
    }
  }

  /** What the reader accepts and returns, exactly. */
  lemma ParseIsExact(s: string, v: seq<VersionsEntry>, rest: string)
    ensures Parse(s) == Ok(v, rest) <==> exists d :: FileOk(d) && s == FileText(d, rest) && v == Meaning(d.entries)
  {
    hide Parse, FileText, Meaning, EntryOk;
    if Parse(s) == Ok(v, rest) {
      var d := FileRead(s);
    }
    forall d | FileOk(d) && s == FileText(d, rest) && v == Meaning(d.entries) ensures Parse(s) == Ok(v, rest) {
      ReadFile(d, rest);
    }
  }
}
