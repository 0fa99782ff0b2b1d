/** The versions.json reader as it runs: one position moving over the text, in loops. Each method is
    proved to do what the function of the same name in VersionsJson does. */
module VersionsParser {
  import opened Wrappers
  import J = VersionsJson

  /** A method's outcome against what its function says: None is the thrown error. */
  ghost predicate Agrees<T(!new)>(r: Option<T>, p: J.Parsed<T>, rest: string) {
    match r
    case None => p.Fail?
    case Some(v) => p == J.Ok(v, rest)
  }

  /** What a loop has collected, before what it will still read. */
  function After<T>(out: seq<T>, p: J.Parsed<seq<T>>): (r: J.Parsed<seq<T>>)
    ensures p.Fail? ==> r.Fail?
  {
    match p
    case Fail => J.Fail
    case Ok(v, rest) => J.Ok(out + v, rest)
  }

  lemma AfterOne<T>(out: seq<T>, x: T, p: J.Parsed<seq<T>>)
    ensures After(out, After([x], p)) == After(out + [x], p)
  {
    if p.Ok? { assert out + ([x] + p.value) == (out + [x]) + p.value; }
  }

  lemma AfterNone<T>(p: J.Parsed<seq<T>>)
    ensures After([], p) == p
  {
    if p.Ok? { assert [] + p.value == p.value; }
  }

  /** The same for characters. */
  function Onto(s: string, p: (string, string)): (string, string) {
    (s + p.0, p.1)
  }

  lemma OntoOne(s: string, c: char, p: (string, string))
    ensures Onto(s, J.Prepend(c, p)) == Onto(s + [c], p)
  {
    assert s + ([c] + p.0) == (s + [c]) + p.0;
  }

  lemma OntoNone(p: (string, string))
    ensures Onto("", p) == p
  {
    assert "" + p.0 == p.0;
  }

  lemma BodyGoesOn(s: string, c: char, later: string, out: string)
    requires s != [] && s[0] != '"'
    requires if s[0] == '\\' && |s| > 1 then c == s[1] && later == s[2..] else c == s[0] && later == s[1..]
    ensures Onto(out, J.StringBody(s)) == Onto(out + [c], J.StringBody(later))
  {
    OntoOne(out, c, J.StringBody(later));
  }

  lemma BodyEnds(s: string, out: string)
    requires s == [] || s[0] == '"'
    ensures Onto(out, J.StringBody(s)) == (out, s)
  {
    assert out + "" == out;
  }

  /** What an array's items are when a comma, or anything else, follows the first. */
  lemma ItemsGoOn(s: string, item: string, later: string)
    requires J.ParseString(s).Ok? && J.ParseString(s).value == item && later == J.SkipSpace(J.ParseString(s).rest)
    requires J.Starts(later, ',')
    ensures J.ParseItems(s) == After([item], J.ParseItems(J.SkipSpace(later[1..])))
  {
    hide J.ParseString, J.SkipSpace;
  }

  lemma ItemsEnd(s: string, item: string, later: string, out: seq<string>)
    requires J.ParseString(s).Ok? && J.ParseString(s).value == item && later == J.SkipSpace(J.ParseString(s).rest)
    requires !J.Starts(later, ',')
    ensures After(out, J.ParseItems(s)) == if J.Starts(later, ']') then J.Ok(out + [item], later[1..]) else J.Fail
  {
    hide J.ParseString, J.SkipSpace;
  }

  /** The same for a file's entries. */
  lemma EntriesGoOn(s: string, e: J.VersionsEntry, later: string)
    requires J.ParseKeyed(s).Ok? && J.ParseKeyed(s).value == e && later == J.SkipSpace(J.ParseKeyed(s).rest)
    requires J.Starts(later, ',')
    ensures J.ParseEntries(s) == After([e], J.ParseEntries(J.SkipSpace(later[1..])))
  {
    hide J.ParseKeyed, J.SkipSpace;
  }

  lemma EntriesEnd(s: string, e: J.VersionsEntry, later: string, out: seq<J.VersionsEntry>)
    requires J.ParseKeyed(s).Ok? && J.ParseKeyed(s).value == e && later == J.SkipSpace(J.ParseKeyed(s).rest)
    requires !J.Starts(later, ',')
    ensures After(out, J.ParseEntries(s)) == if J.Starts(later, '}') then J.Ok(out + [e], later[1..]) else J.Fail
    ensures J.SkipSpace(later) == later
  {
    hide J.ParseKeyed, J.SkipSpace;
    J.SkipTwice(J.ParseKeyed(s).rest);
  }

  class Parser {
    const src: string
    var i: nat

    ghost predicate Valid()
      reads this
    {
      i <= |src|
    }

    ghost function Rest(): string
      requires Valid()
      reads this
    {
      src[i..]
    }

    constructor (s: string)
      ensures Valid() && src == s && Rest() == s
    {
      src := s;
      i := 0;
    }

    method Peek() returns (c: Option<char>)
      requires Valid()
      ensures if Rest() == [] then c.None? else c == Some(Rest()[0])
    {
      return if i >= |src| then None else Some(src[i]);
    }

    method Advance()
      requires Valid() && Rest() != []
      modifies `i
      ensures Valid() && Rest() == old(Rest())[1..]
    {
      i := i + 1;
    }

    method Expect(c: char) returns (r: Option<()>)
      requires Valid()
      modifies `i
      ensures Valid() && Agrees(r, J.Expect(old(Rest()), c), Rest())
    {
      if i >= |src| || src[i] != c { return None; }
      i := i + 1;
      return Some(());
    }

    method SkipWs()
      requires Valid()
      modifies `i
      ensures Valid() && Rest() == J.SkipSpace(old(Rest()))
    {
      while i < |src| && J.IsSpace(src[i])
        invariant Valid()
        invariant J.SkipSpace(Rest()) == J.SkipSpace(old(Rest()))
      {
        i := i + 1;
      }
    }

    /** The loop of ParseString. */
    method ReadBody() returns (s: string)
      requires Valid()
      modifies `i
      ensures Valid() && (s, Rest()) == J.StringBody(old(Rest()))
    {
      hide J.StringBody;
      s := "";
      OntoNone(J.StringBody(Rest()));
      while i < |src| && src[i] != '"'
        invariant Valid()
        invariant J.StringBody(old(Rest())) == Onto(s, J.StringBody(Rest()))
        decreases |src| - i
      {
        ghost var here := Rest();
        if src[i] == '\\' && i + 1 < |src| {
          BodyGoesOn(here, src[i + 1], src[i + 2..], s);
          s := s + [src[i + 1]];
          i := i + 2;
        } else {
          BodyGoesOn(here, src[i], src[i + 1..], s);
          s := s + [src[i]];
          i := i + 1;
        }
      }
      BodyEnds(Rest(), s);
    }

    method ParseString() returns (r: Option<string>)
      requires Valid()
      modifies `i
      ensures Valid() && Agrees(r, J.ParseString(old(Rest())), Rest())
    {
      hide J.StringBody;
      var _ :- Expect('"');
      var s := ReadBody();
      var _ :- Expect('"');
      return Some(s);
    }

    method ParseBool() returns (r: Option<bool>)
      requires Valid()
      modifies `i
      ensures Valid() && Agrees(r, J.ParseBool(old(Rest())), Rest())
    {
      if "true" <= src[i..] {
        i := i + 4;
        return Some(true);
      }
      if "false" <= src[i..] {
        i := i + 5;
        return Some(false);
      }
      return None;
    }

    method ReadDigits() returns (digits: string)
      requires Valid()
      modifies `i
      ensures Valid() && (digits, Rest()) == J.TakeDigits(old(Rest()))
    {
      hide J.IsDigit;
      digits := "";
      ghost var whole := J.TakeDigits(Rest());
      OntoNone(whole);
      while i < |src| && J.IsDigit(src[i])
        invariant Valid()
        invariant whole == Onto(digits, J.TakeDigits(Rest()))
      {
        ghost var later := Rest()[1..];
        assert later == src[i + 1..];
        OntoOne(digits, src[i], J.TakeDigits(later));
        digits := digits + [src[i]];
        i := i + 1;
      }
      assert digits + "" == digits;
    }

    method ParseInt() returns (r: Option<int>)
      requires Valid()
      modifies `i
      ensures Valid() && Agrees(r, J.ParseInt(old(Rest())), Rest())
    {
      hide J.TakeDigits, J.DigitsValue;
      var negative := i < |src| && src[i] == '-';
      if negative { i := i + 1; }
      J.TakeDigitsAreDigits(Rest());
      var digits := ReadDigits();
      r := Stoll(negative, digits);
    }

    /** The conversion of the characters just read. */
    method Stoll(negative: bool, digits: string) returns (r: Option<int>)
      requires forall c :: c in digits ==> J.IsDigit(c)
      ensures r == if digits != [] && J.InInt64(J.Signed(negative, J.DigitsValue(digits)))
                   then Some(J.Signed(negative, J.DigitsValue(digits))) else None
    {
      if digits == [] { return None; }
      var n := J.Signed(negative, J.DigitsValue(digits));
      return if J.InInt64(n) then Some(n) else None;
    }

    method ParseStringArray() returns (r: Option<seq<string>>)
      requires Valid()
      modifies `i
      ensures Valid() && Agrees(r, J.ParseStringArray(old(Rest())), Rest())
    {
      hide J.ParseString, J.SkipSpace, After;
      var out: seq<string> := [];
      var _ :- Expect('[');
      SkipWs();
      var c :- Peek();
      if c == ']' {
        Advance();
        return Some(out);
      }
      ghost var whole := J.ParseItems(Rest());
      AfterNone(whole);
      while true
        invariant Valid()
        invariant whole == After(out, J.ParseItems(Rest()))
        decreases |src| - i
      {
        ghost var here := Rest();
        var item :- ParseString();
        SkipWs();
        c :- Peek();
        ghost var later := Rest();
        if c == ',' {
          Advance();
          SkipWs();
          AfterOne(out, item, J.ParseItems(Rest()));
          ItemsGoOn(here, item, later);
          out := out + [item];
          continue;
        }
        ItemsEnd(here, item, later, out);
        out := out + [item];
        break;
      }
      var _ :- Expect(']');
      return Some(out);
    }

    /** The value of an unknown field. */
    method SkipValue() returns (r: Option<()>)
      requires Valid()
      modifies `i
      ensures Valid() && Agrees(r, J.SkipValue(old(Rest())), Rest())
    {
      var c :- Peek();
      if c == '"' {
        var _ :- ParseString();
      } else if c == '[' {
        var _ :- ParseStringArray();
      } else if c == 't' || c == 'f' {
        var _ :- ParseBool();
      } else {
        var _ :- ParseInt();
      }
      return Some(());
    }

    /** One field's value, stored into the entry under construction. */
    method ParseValue(field: string, e: J.VersionsEntry) returns (r: Option<J.VersionsEntry>)
      requires Valid()
      modifies `i
      ensures Valid() && Agrees(r, J.ParseValue(old(Rest()), field, e), Rest())
    {
      if field == "pe_timestamp" {
        var c :- Peek();
        if c == '"' {
          var _ :- ParseString();
          return Some(e.(peTimestamp := 0));
        } else {
          var n :- ParseInt();
          return Some(e.(peTimestamp := n % J.WORD32));
        }
      } else if field == "text_sha256" {
        var v :- ParseString();
        return Some(e.(textSha256 := v));
      } else if field == "tested" {
        var b :- ParseBool();
        return Some(e.(tested := b));
      } else if field == "auto_disable" {
        var v :- ParseStringArray();
        return Some(e.(autoDisable := v));
      } else {
        var _ :- SkipValue();
        return Some(e);
      }
    }

    method ParseEntry(version: string) returns (r: Option<J.VersionsEntry>)
      requires Valid()
      modifies `i
      ensures Valid() && Agrees(r, J.ParseEntry(old(Rest()), version), Rest())
    {
      hide J.ParseString, J.SkipSpace, J.ParseValue;
      var e := J.NewEntry(version);
      var _ :- Expect('{');
      SkipWs();
      var first := true;
      ghost var whole := J.ParseFields(Rest(), e, first);
      var c :- Peek();
      while c != '}'
        invariant Valid() && Rest() != [] && c == Rest()[0]
        invariant whole == J.ParseFields(Rest(), e, first)
        decreases |src| - i
      {
        if !first {
          var _ :- Expect(',');
          SkipWs();
        }
        first := false;
        var field :- ParseString();
        SkipWs();
        var _ :- Expect(':');
        SkipWs();
        e :- ParseValue(field, e);
        SkipWs();
        c :- Peek();
      }
      Advance();
      return Some(e);
    }

    method ParseKeyed() returns (r: Option<J.VersionsEntry>)
      requires Valid()
      modifies `i
      ensures Valid() && Agrees(r, J.ParseKeyed(old(Rest())), Rest())
    {
      hide J.ParseString, J.SkipSpace, J.ParseEntry;
      var key :- ParseString();
      SkipWs();
      var _ :- Expect(':');
      SkipWs();
      r := ParseEntry(key);
    }

    method Parse() returns (r: Option<seq<J.VersionsEntry>>)
      requires Valid()
      modifies `i
      ensures Valid() && Agrees(r, J.Parse(old(Rest())), Rest())
    {
      hide J.ParseKeyed, J.SkipSpace, After;
      var out: seq<J.VersionsEntry> := [];
      SkipWs();
      var _ :- Expect('{');
      SkipWs();
      var c :- Peek();
      if c == '}' {
        Advance();
        return Some(out);
      }
      ghost var whole := J.ParseEntries(Rest());
      AfterNone(whole);
      while true
        invariant Valid()
        invariant whole == After(out, J.ParseEntries(Rest()))
        decreases |src| - i
      {
        ghost var here := Rest();
        var e :- ParseKeyed();
        SkipWs();
        c :- Peek();
        ghost var later := Rest();
        if c == ',' {
          Advance();
          SkipWs();
          AfterOne(out, e, J.ParseEntries(Rest()));
          EntriesGoOn(here, e, later);
          out := out + [e];
          continue;
        }
        EntriesEnd(here, e, later, out);
        out := out + [e];
        break;
      }
      SkipWs();
      var _ :- Expect('}');
      return Some(out);
    }
  }

  /** Placeholders are left out, the rest keeps its order. */
  method DropPlaceholders(raw: seq<J.VersionsEntry>) returns (usable: seq<J.VersionsEntry>)
    ensures usable == J.Usable(raw)
  {
    hide J.Placeholder;
    usable := [];
    assert raw[0..] == raw;
    for k := 0 to |raw|
      invariant usable + J.Usable(raw[k..]) == J.Usable(raw)
    {
      ghost var here := raw[k..];
      assert here[1..] == raw[k + 1..];
      if !J.Placeholder(raw[k]) { usable := usable + [raw[k]]; }
    }
  }

  /** The entries a file offers, or None if it does not parse. */
  method LoadVersionsJson(text: string) returns (r: Option<seq<J.VersionsEntry>>)
    ensures r == J.Load(text)
  {
    hide J.Parse, J.Usable;
    var p := new Parser(text);
    var raw :- p.Parse();
    var usable := DropPlaceholders(raw);
    return Some(usable);
  }

  /** The first entry for this build of the game. */
  method FindMatch(entries: seq<J.VersionsEntry>, peTimestamp: int, textSha256: string) returns (r: Option<nat>)
    ensures r.Some? ==>
              && r.value < |entries|
              && entries[r.value].peTimestamp == peTimestamp && entries[r.value].textSha256 == textSha256
    ensures forall k :: 0 <= k < (if r.Some? then r.value else |entries|) ==>
              entries[k].peTimestamp != peTimestamp || entries[k].textSha256 != textSha256
  {
    for k := 0 to |entries|
      invariant forall j :: 0 <= j < k ==>
                  entries[j].peTimestamp != peTimestamp || entries[j].textSha256 != textSha256
    {
      if entries[k].peTimestamp == peTimestamp && entries[k].textSha256 == textSha256 { return Some(k); }
    }
    return None;
  }
}
