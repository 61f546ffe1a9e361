/**
 * JSON.stringify(obj, null, 2) for the objects the converter builds: flat
 * objects whose own properties all hold strings, serialised in property
 * insertion order. Also a reader for exactly this layout, used to show that
 * the text determines the objects it was made from.
 */
module Json {
  import opened Wrappers
  import opened Seqs
  import opened JsStrings

  /** One own property of an object, with a string value. */
  datatype Field = Field(key: string, value: string)

  /** A JavaScript object with string-valued properties, in insertion order. */
  type Object = seq<Field>

  function HexDigit(d: nat): (c: char)
    requires d < 16
  {
    if d < 10 then DigitChar(d) else (('a' as int) + d - 10) as char
  }

  /**
   * How JSON.stringify writes one character inside a string literal: the
   * quote, the backslash and the five named controls get a two-character
   * escape, the other controls below U+0020 a \u00XX escape in lower-case hex,
   * everything else stands for itself.
   */
  function EscapeChar(c: char): (r: string)
    ensures |r| >= 1
    ensures r[0] == '\\' || (r == [c] && c != '"' && c >= ' ')
  {
    if c == '"' then "\\\""
    else if c == '\\' then "\\\\"
    else if c == '\U{0008}' then "\\b"
    else if c == '\t' then "\\t"
    else if c == '\n' then "\\n"
    else if c == '\U{000C}' then "\\f"
    else if c == '\r' then "\\r"
    else if c < ' ' then "\\u00" + [HexDigit(c as int / 16), HexDigit(c as int % 16)]
    else [c]
  }

  /** The body of a string literal: each character escaped in turn. */
  function Escape(s: string): (r: string)
    ensures |r| >= |s|
    ensures r == [] <==> s == []
  {
    if s == [] then [] else EscapeChar(s[0]) + Escape(s[1..])
  }

  /** A JSON string literal. */
  function Quote(s: string): string
  {
    "\"" + Escape(s) + "\""
  }

  /** One property line at indentation level one: two spaces, key, ": ", value. */
  function Member(f: Field): string
  {
    "  " + Quote(f.key) + ": " + Quote(f.value)
  }

  /** JSON.stringify(o, null, 2) for a flat object with string values. */
  function Stringify(o: Object): (r: string)
    ensures |r| >= 2 && r[0] == '{' && r[|r| - 1] == '}'
    ensures o == [] <==> |r| == 2
  {
    if o == [] then "{}" else "{\n" + Join(Map(o, Member), ",\n") + "\n}"
  }

  predicate StartsWith(s: string, p: string)
  {
    |p| <= |s| && s[..|p|] == p
  }

  function HexValue(c: char): Option<nat>
  {
    if '0' <= c <= '9' then Some(c as int - '0' as int)
    else if 'a' <= c <= 'f' then Some(c as int - 'a' as int + 10)
    else if 'A' <= c <= 'F' then Some(c as int - 'A' as int + 10)
    else None
  }

  /** The code point written by four hexadecimal digits. */
  function Hex4(s: string): Option<nat>
    requires |s| == 4
  {
    match (HexValue(s[0]), HexValue(s[1]), HexValue(s[2]), HexValue(s[3]))
    case (Some(a), Some(b), Some(c), Some(d)) => Some(((a * 16 + b) * 16 + c) * 16 + d)
    case _ => None
  }

  /**
   * The character an escape stands for, read from the text after the
   * backslash, and the text after the escape. A \u escape of a surrogate
   * is refused: it does not denote a character on its own.
   */
  function ReadEscape(s: string): (r: Option<(char, string)>)
    ensures r.Some? ==> |r.value.1| < |s|
  {
    if s == [] then None
    else if s[0] == '"' then Some(('"', s[1..]))
    else if s[0] == '\\' then Some(('\\', s[1..]))
    else if s[0] == '/' then Some(('/', s[1..]))
    else if s[0] == 'b' then Some(('\U{0008}', s[1..]))
    else if s[0] == 'f' then Some(('\U{000C}', s[1..]))
    else if s[0] == 'n' then Some(('\n', s[1..]))
    else if s[0] == 'r' then Some(('\r', s[1..]))
    else if s[0] == 't' then Some(('\t', s[1..]))
    else if s[0] == 'u' && |s| >= 5 then
      match Hex4(s[1..5])
      case Some(v) =>
        if v < 0xD800 || 0xE000 <= v then Some((v as char, s[5..])) else None
      case None => None
    else None
  }

  /** One character of a string literal body, escaped or not, and the text after it. */
  function ReadChar(s: string): (r: Option<(char, string)>)
    requires s != []
    ensures r.Some? ==> |r.value.1| < |s|
  {
    if s[0] == '\\' then ReadEscape(s[1..]) else Some((s[0], s[1..]))
  }

  function Prepend(c: char, r: Option<(string, string)>): Option<(string, string)>
  {
    match r
    case None => None
    case Some((v, after)) => Some(([c] + v, after))
  }

  /**
   * Reads the rest of a string literal whose opening quote has been consumed:
   * the characters it denotes and the text after its closing quote. A raw
   * control character is refused.
   */
  function ReadString(s: string): (r: Option<(string, string)>)
    ensures r.Some? ==> |r.value.1| < |s|
    decreases |s|
  {
    if s == [] then None
    else if s[0] == '"' then Some(([], s[1..]))
    else if s[0] < ' ' then None
    else
      match ReadChar(s)
      case None => None
      case Some((c, rest)) => Prepend(c, ReadString(rest))
  }

  /** Reads one property line, as Member writes it. */
  function ReadMember(s: string): (r: Option<(Field, string)>)
    ensures r.Some? ==> |r.value.1| < |s|
  {
    if !StartsWith(s, "  \"") then None
    else match ReadString(s[3..])
      case None => None
      case Some((k, afterKey)) =>
        if !StartsWith(afterKey, ": \"") then None
        else match ReadString(afterKey[3..])
          case None => None
          case Some((v, after)) => Some((Field(k, v), after))
  }

  /** Reads property lines separated by ",\n". */
  function ReadMembers(s: string): (r: Option<(Object, string)>)
    ensures r.Some? ==> |r.value.1| < |s|
    decreases |s|
  {
    match ReadMember(s)
    case None => None
    case Some((f, after)) =>
      if StartsWith(after, ",\n") then
        match ReadMembers(after[2..])
        case None => None
        case Some((fs, rest)) => Some(([f] + fs, rest))
      else Some(([f], after))
  }

  /** Reads one object as Stringify writes it. */
  function ReadObject(s: string): (r: Option<(Object, string)>)
    ensures r.Some? ==> |r.value.1| < |s|
  {
    if StartsWith(s, "{}") then Some(([], s[2..]))
    else if !StartsWith(s, "{\n") then None
    else match ReadMembers(s[2..])
      case None => None
      case Some((o, after)) => if StartsWith(after, "\n}") then Some((o, after[2..])) else None
  }

  /** Reads objects separated by ",\n". */
  function ReadObjects(s: string): (r: Option<(seq<Object>, string)>)
    ensures r.Some? ==> |r.value.1| < |s|
    decreases |s|
  {
    match ReadObject(s)
    case None => None
    case Some((o, after)) =>
      if StartsWith(after, ",\n") then
        match ReadObjects(after[2..])
        case None => None
        case Some((os, rest)) => Some(([o] + os, rest))
      else Some(([o], after))
  }

  /** Reads a whole array text "[\n" objects "\n]" and nothing after it. */
  function ReadArray(s: string): Option<seq<Object>>
  {
    if !StartsWith(s, "[\n") then None
    else match ReadObjects(s[2..])
      case None => None
      case Some((os, after)) => if after == "\n]" then Some(os) else None
  }

  // ---------------------------------------------------------------------
  // Round trips: reading what JSON.stringify wrote gives back the values.
  // ---------------------------------------------------------------------

  lemma {:induction false} HexDigitValue(d: nat)
    requires d < 16
    ensures HexValue(HexDigit(d)) == Some(d)
  {
  }

  /** Reading one escaped character gives it back. */
  lemma {:induction false} ReadCharOf(c: char, rest: string)
    ensures ReadChar(EscapeChar(c) + rest) == Some((c, rest))
  {
    var e := EscapeChar(c);
    var s := e + rest;
    if e[0] == '\\' {
      assert s[1..] == e[1..] + rest;
      if c < ' ' && c != '\U{0008}' && c != '\t' && c != '\n' && c != '\U{000C}' && c != '\r' {
        var hi, lo := c as int / 16, c as int % 16;
        HexDigitValue(hi);
        HexDigitValue(lo);
        var t := e[1..] + rest;
        assert t[1..5] == [e[2], e[3], e[4], e[5]];
        assert t[5..] == rest;
      }
    } else {
      assert s[1..] == rest;
    }
  }

  /** Reading an escaped string up to its closing quote gives the string back. */
  lemma {:induction false} ReadStringEscape(v: string, rest: string)
    ensures ReadString(Escape(v) + "\"" + rest) == Some((v, rest))
  {
    var s := Escape(v) + "\"" + rest;
    if v == [] {
      assert s == "\"" + rest;
    } else {
      var e := EscapeChar(v[0]);
      var tail := Escape(v[1..]) + "\"" + rest;
      assert s == e + tail;
      assert s[0] == e[0];
      assert ReadChar(s) == Some((v[0], tail)) by {
        ReadCharOf(v[0], tail);
      }
      assert ReadString(tail) == Some((v[1..], rest)) by {
        ReadStringEscape(v[1..], rest);
      }
      assert [v[0]] + v[1..] == v;
    }
  }

  /** A text starts with its own prefix, and dropping that prefix leaves the rest. */
  lemma {:induction false} DropPrefix(p: string, t: string)
    ensures StartsWith(p + t, p) && (p + t)[|p|..] == t
  {
    assert (p + t)[..|p|] == p;
  }

  /** ReadMember succeeds once each of its steps does. */
  lemma {:induction false} ReadMemberSteps(s: string, f: Field, afterKey: string, rest: string)
    requires StartsWith(s, "  \"") && ReadString(s[3..]) == Some((f.key, afterKey))
    requires StartsWith(afterKey, ": \"") && ReadString(afterKey[3..]) == Some((f.value, rest))
    ensures ReadMember(s) == Some((f, rest))
  {
  }

  /** A property line followed by more text, spelled out piece by piece. */
  lemma {:induction false} MemberLayout(f: Field, rest: string)
    ensures Member(f) + rest == "  \"" + (Escape(f.key) + "\"" + (": \"" + (Escape(f.value) + "\"" + rest)))
  {
    var ek, ev := Escape(f.key), Escape(f.value);
    var q1, q2 := Quote(f.key), Quote(f.value);
    var afterValue := ev + "\"" + rest;
    var afterKey := ": \"" + afterValue;
    assert q2 + rest == "\"" + afterValue by {
      ConcatAssoc("\"", ev, "\"");
      ConcatAssoc("\"", ev + "\"", rest);
    }
    assert ": " + (q2 + rest) == afterKey by {
      ConcatAssoc(": ", "\"", afterValue);
    }
    assert q1 + afterKey == "\"" + (ek + "\"" + afterKey) by {
      ConcatAssoc("\"", ek, "\"");
      ConcatAssoc("\"", ek + "\"", afterKey);
    }
    calc {
      Member(f) + rest;
      "  " + q1 + ": " + q2 + rest;
      { ConcatAssoc("  " + q1 + ": ", q2, rest); }
      "  " + q1 + ": " + (q2 + rest);
      { ConcatAssoc("  " + q1, ": ", q2 + rest); }
      "  " + q1 + afterKey;
      { ConcatAssoc("  ", q1, afterKey); }
      "  " + ("\"" + (ek + "\"" + afterKey));
      { ConcatAssoc("  ", "\"", ek + "\"" + afterKey); }
      "  \"" + (ek + "\"" + afterKey);
    }
  }

  /** Reading a property line gives the property back. */
  lemma {:induction false} ReadMemberOf(f: Field, rest: string)
    ensures ReadMember(Member(f) + rest) == Some((f, rest))
  {
    MemberLayout(f, rest);
    ReadMemberPieces(f, rest);
  }

  lemma {:induction false} ReadMemberPieces(f: Field, rest: string)
    ensures ReadMember("  \"" + (Escape(f.key) + "\"" + (": \"" + (Escape(f.value) + "\"" + rest)))) == Some((f, rest))
  {
    var ek, ev := Escape(f.key), Escape(f.value);
    var afterKey := ": \"" + (ev + "\"" + rest);
    var s := "  \"" + (ek + "\"" + afterKey);
    DropPrefix("  \"", ek + "\"" + afterKey);
    DropPrefix(": \"", ev + "\"" + rest);
    assert ReadString(s[3..]) == Some((f.key, afterKey)) by {
      ReadStringEscape(f.key, afterKey);
    }
    assert ReadString(afterKey[3..]) == Some((f.value, rest)) by {
      ReadStringEscape(f.value, rest);
    }
    ReadMemberSteps(s, f, afterKey, rest);
  }

  /** ReadMembers continues past a ",\n" separator. */
  lemma {:induction false} ReadMembersStep(s: string, f: Field, tail: string, fs: Object, rest: string)
    requires ReadMember(s) == Some((f, ",\n" + tail))
    requires ReadMembers(tail) == Some((fs, rest))
    ensures ReadMembers(s) == Some(([f] + fs, rest))
  {
    DropPrefix(",\n", tail);
  }

  /** ReadMembers stops where no ",\n" separator follows. */
  lemma {:induction false} ReadMembersLast(s: string, f: Field, rest: string)
    requires ReadMember(s) == Some((f, rest))
    requires !StartsWith(rest, ",\n")
    ensures ReadMembers(s) == Some(([f], rest))
  {
  }

  /** Joining the first text and the join of the others. */
  lemma {:induction false} JoinCons(parts: seq<string>, sep: string, rest: string)
    requires |parts| >= 2
    ensures Join(parts, sep) + rest == parts[0] + (sep + (Join(parts[1..], sep) + rest))
  {
  }

  /** The joined images of one value is its image. */
  lemma JoinMapOne<T>(xs: seq<T>, f: T -> string)
    requires |xs| == 1
    ensures Join(Map(xs, f), ",\n") == f(xs[0])
  {
  }

  /** The joined images of two or more values: the first image, ",\n", the joined rest. */
  lemma JoinMapCons<T>(xs: seq<T>, f: T -> string, rest: string)
    requires |xs| >= 2
    ensures Join(Map(xs, f), ",\n") + rest == f(xs[0]) + (",\n" + (Join(Map(xs[1..], f), ",\n") + rest))
  {
    var images := Map(xs, f);
    JoinCons(images, ",\n", rest);
    assert images[1..] == Map(xs[1..], f);
  }

  /** Reading the joined property lines of a non-empty object gives its properties back. */
  lemma {:induction false} ReadMembersOf(fs: Object, rest: string)
    requires fs != []
    requires !StartsWith(rest, ",\n")
    ensures ReadMembers(Join(Map(fs, Member), ",\n") + rest) == Some((fs, rest))
  {
    if |fs| == 1 {
      JoinMapOne(fs, Member);
      ReadMemberOf(fs[0], rest);
      ReadMembersLast(Member(fs[0]) + rest, fs[0], rest);
      assert fs == [fs[0]];
    } else {
      var tail := Join(Map(fs[1..], Member), ",\n") + rest;
      JoinMapCons(fs, Member, rest);
      ReadMemberOf(fs[0], ",\n" + tail);
      ReadMembersOf(fs[1..], rest);
      ReadMembersStep(Member(fs[0]) + (",\n" + tail), fs[0], tail, fs[1..], rest);
      HeadTail(fs);
    }
  }

  /** ReadObject of "{\n", property lines, "\n}". */
  lemma {:induction false} ReadObjectSteps(body: string, o: Object, rest: string)
    requires o != []
    requires ReadMembers(body + ("\n}" + rest)) == Some((o, "\n}" + rest))
    ensures ReadObject("{\n" + (body + ("\n}" + rest))) == Some((o, rest))
  {
    var s := "{\n" + (body + ("\n}" + rest));
    DropPrefix("{\n", body + ("\n}" + rest));
    DropPrefix("\n}", rest);
    assert s[1] == '\n';
  }

  /** Reading a stringified object gives the object back. */
  lemma {:induction false} ReadObjectOf(o: Object, rest: string)
    ensures ReadObject(Stringify(o) + rest) == Some((o, rest))
  {
    if o == [] {
      DropPrefix("{}", rest);
    } else {
      var body := Join(Map(o, Member), ",\n");
      assert Stringify(o) + rest == "{\n" + (body + ("\n}" + rest));
      ReadMembersOf(o, "\n}" + rest);
      ReadObjectSteps(body, o, rest);
    }
  }

  /** ReadObjects continues past a ",\n" separator. */
  lemma {:induction false} ReadObjectsStep(s: string, o: Object, tail: string, os: seq<Object>, rest: string)
    requires ReadObject(s) == Some((o, ",\n" + tail))
    requires ReadObjects(tail) == Some((os, rest))
    ensures ReadObjects(s) == Some(([o] + os, rest))
  {
    DropPrefix(",\n", tail);
  }

  /** ReadObjects stops where no ",\n" separator follows. */
  lemma {:induction false} ReadObjectsLast(s: string, o: Object, rest: string)
    requires ReadObject(s) == Some((o, rest))
    requires !StartsWith(rest, ",\n")
    ensures ReadObjects(s) == Some(([o], rest))
  {
  }

  /** Reading stringified objects joined by ",\n" gives them back. */
  lemma {:induction false} ReadObjectsOf(os: seq<Object>, rest: string)
    requires os != []
    requires !StartsWith(rest, ",\n")
    ensures ReadObjects(Join(Map(os, Stringify), ",\n") + rest) == Some((os, rest))
  {
    if |os| == 1 {
      JoinMapOne(os, Stringify);
      ReadObjectOf(os[0], rest);
      ReadObjectsLast(Stringify(os[0]) + rest, os[0], rest);
      assert os == [os[0]];
    } else {
      var tail := Join(Map(os[1..], Stringify), ",\n") + rest;
      JoinMapCons(os, Stringify, rest);
      ReadObjectOf(os[0], ",\n" + tail);
      ReadObjectsOf(os[1..], rest);
      ReadObjectsStep(Stringify(os[0]) + (",\n" + tail), os[0], tail, os[1..], rest);
      HeadTail(os);
    }
  }

  /** Reading the array text made of stringified objects gives the objects back. */
  lemma {:induction false} ReadArrayOf(os: seq<Object>)
    requires os != []
    ensures ReadArray("[\n" + Join(Map(os, Stringify), ",\n") + "\n]") == Some(os)
  {
    var body := Join(Map(os, Stringify), ",\n");
    var s := "[\n" + body + "\n]";
    assert s == "[\n" + (body + "\n]");
    DropPrefix("[\n", body + "\n]");
    assert !StartsWith("\n]", ",\n") by {
      assert "\n]"[..2][0] == '\n';
    }
    ReadObjectsOf(os, "\n]");
  }
}
