/**
 * The part of JSON text (RFC 8259) that the event log writes itself: objects
 * with string, number and string-list members in a fixed order, without
 * insignificant whitespace, and the UTF-8 bytes of such text.
 *
 * Strings are written without escapes. That is what Go's `encoding/json`,
 * Python's `json.dumps` and Rust's `serde_json` write for strings made of
 * "plain" characters, and the lemmas of the modules that use this one show
 * that every string they put into a document is plain.
 */
module Json {
  import opened Common

  /**
   * A character every encoder here copies unchanged into a string: printable
   * ASCII other than the quote, the backslash, and the '<', '>' and '&' that
   * Go's encoder escapes for HTML safety.
   */
  predicate PlainChar(c: char)
  {
    ' ' <= c <= '~' && c != '"' && c != '\\' && c != '<' && c != '>' && c != '&'
  }

  predicate Plain(s: string)
  {
    forall c | c in s :: PlainChar(c)
  }

  predicate AllPlain(xs: seq<string>)
  {
    forall i :: 0 <= i < |xs| ==> Plain(xs[i])
  }

  predicate IsAscii(s: string)
  {
    forall c | c in s :: c < '\U{80}'
  }

  /** A JSON string holding `s`, which is written as it is. */
  function Quote(s: string): string
  {
    "\"" + s + "\""
  }

  /** An object member: the quoted name, a colon, the value text. */
  function Member(name: string, value: string): string
  {
    Quote(name) + ":" + value
  }

  /** The quoted strings separated by commas. */
  function Items(xs: seq<string>): string
    decreases |xs|
  {
    if xs == [] then ""
    else if |xs| == 1 then Quote(xs[0])
    else Quote(xs[0]) + "," + Items(xs[1..])
  }

  /** A JSON array of strings. */
  function StringList(xs: seq<string>): string
  {
    "[" + Items(xs) + "]"
  }

  /** An object member as written: its name and the JSON text of its value. */
  datatype Field = Field(name: string, value: string)

  /** The members separated by commas. */
  function Members(ms: seq<Field>): string
    decreases |ms|
  {
    if ms == [] then ""
    else if |ms| == 1 then Member(ms[0].name, ms[0].value)
    else Member(ms[0].name, ms[0].value) + "," + Members(ms[1..])
  }

  /** A JSON object with the members in the given order and no whitespace. */
  function Object(ms: seq<Field>): string
  {
    "{" + Members(ms) + "}"
  }

  /** The characters the members take up, separating commas aside. */
  function Width(ms: seq<Field>): nat
    decreases |ms|
  {
    if ms == [] then 0 else FieldWidth(ms[0]) + Width(ms[1..])
  }

  /** An object's length: its members, a comma between each two, and the braces. */
  lemma {:induction false} ObjectWidth(ms: seq<Field>)
    requires |ms| >= 1
    ensures |Members(ms)| == Width(ms) + |ms| - 1
    ensures |Object(ms)| == Width(ms) + |ms| + 1
    decreases |ms|
  {
    if |ms| > 1 {
      ObjectWidth(ms[1..]);
    }
  }

  /** The width taken by one member. */
  function FieldWidth(f: Field): nat
  {
    |f.name| + |f.value| + 3
  }

  lemma WidthCons(f: Field, ms: seq<Field>)
    ensures Width([f] + ms) == FieldWidth(f) + Width(ms)
  {
    assert ([f] + ms)[1..] == ms;
  }

  lemma {:induction false} WidthAppend(xs: seq<Field>, ys: seq<Field>)
    ensures Width(xs + ys) == Width(xs) + Width(ys)
    decreases |xs|
  {
    if xs == [] {
      assert xs + ys == ys;
    } else {
      assert (xs + ys)[1..] == xs[1..] + ys;
      WidthAppend(xs[1..], ys);
    }
  }

  predicate AsciiFields(ms: seq<Field>)
  {
    forall i :: 0 <= i < |ms| ==> IsAscii(ms[i].name) && IsAscii(ms[i].value)
  }

  lemma AsciiConcat(a: string, b: string)
    requires IsAscii(a) && IsAscii(b)
    ensures IsAscii(a + b)
  {
  }

  lemma PlainAscii(s: string)
    requires Plain(s)
    ensures IsAscii(s)
  {
    forall c | c in s
      ensures c < '\U{80}'
    {
      assert PlainChar(c);
    }
  }

  lemma QuoteAscii(s: string)
    requires IsAscii(s)
    ensures IsAscii(Quote(s))
  {
    AsciiConcat("\"", s);
    AsciiConcat("\"" + s, "\"");
  }

  lemma {:induction false} MembersAscii(ms: seq<Field>)
    requires AsciiFields(ms)
    ensures IsAscii(Members(ms))
    decreases |ms|
  {
    if ms != [] {
      var m := Member(ms[0].name, ms[0].value);
      QuoteAscii(ms[0].name);
      AsciiConcat(Quote(ms[0].name), ":");
      AsciiConcat(Quote(ms[0].name) + ":", ms[0].value);
      if |ms| > 1 {
        MembersAscii(ms[1..]);
        AsciiConcat(m, ",");
        AsciiConcat(m + ",", Members(ms[1..]));
      }
    }
  }

  /** An object whose names and value texts are ASCII is ASCII. */
  lemma ObjectAscii(ms: seq<Field>)
    requires AsciiFields(ms)
    ensures IsAscii(Object(ms))
  {
    MembersAscii(ms);
    AsciiConcat("{", Members(ms));
    AsciiConcat("{" + Members(ms), "}");
  }

  /** Same names and equally long value texts give equally long objects. */
  lemma {:induction false} ObjectLength(ms1: seq<Field>, ms2: seq<Field>)
    requires |ms1| == |ms2|
    requires forall i :: 0 <= i < |ms1| ==> ms1[i].name == ms2[i].name && |ms1[i].value| == |ms2[i].value|
    ensures |Members(ms1)| == |Members(ms2)|
    ensures |Object(ms1)| == |Object(ms2)|
    decreases |ms1|
  {
    if |ms1| > 1 {
      ObjectLength(ms1[1..], ms2[1..]);
    }
  }

  /** A list of plain strings is written in plain ASCII (quotes, commas and brackets aside). */
  lemma {:induction false} ItemsAscii(xs: seq<string>)
    requires AllPlain(xs)
    ensures IsAscii(Items(xs))
    decreases |xs|
  {
    if xs != [] {
      PlainAscii(xs[0]);
      QuoteAscii(xs[0]);
      if |xs| > 1 {
        ItemsAscii(xs[1..]);
        AsciiConcat(Quote(xs[0]), ",");
        AsciiConcat(Quote(xs[0]) + ",", Items(xs[1..]));
      }
    }
  }

  lemma StringListLength(xs: seq<string>)
    ensures xs == [] ==> |StringList(xs)| == 2
    ensures |xs| == 1 ==> |StringList(xs)| == |xs[0]| + 4
  {
  }

  lemma StringListAscii(xs: seq<string>)
    requires AllPlain(xs)
    ensures IsAscii(StringList(xs))
  {
    ItemsAscii(xs);
    AsciiConcat("[", Items(xs));
    AsciiConcat("[" + Items(xs), "]");
  }

  /** The UTF-8 encoding of one character (RFC 3629 section 3). */
  function Utf8Char(c: char): (b: Bytes)
    ensures c < '\U{80}' <==> |b| == 1
    ensures c < '\U{80}' ==> b[0] == c as int
    ensures '\U{80}' <= c ==> 2 <= |b| <= 4 && b[0] >= 0xC0
    ensures forall i :: 1 <= i < |b| ==> 0x80 <= b[i] < 0xC0
  {
    var x := c as int;
    if x < 0x80 then [x]
    else if x < 0x800 then [0xC0 + x / 64, 0x80 + x % 64]
    else if x < 0x1_0000 then [0xE0 + x / 4096, 0x80 + (x / 64) % 64, 0x80 + x % 64]
    else [0xF0 + x / 0x4_0000, 0x80 + (x / 4096) % 64, 0x80 + (x / 64) % 64, 0x80 + x % 64]
  }

  /** The UTF-8 bytes of a string (Go's `[]byte(s)`, Python's `s.encode()`). */
  function Utf8(s: string): (b: Bytes)
    ensures |b| >= |s|
    decreases |s|
  {
    if s == [] then [] else Utf8Char(s[0]) + Utf8(s[1..])
  }

  /** Encoding distributes over concatenation. */
  lemma {:induction false} Utf8Append(a: string, b: string)
    ensures Utf8(a + b) == Utf8(a) + Utf8(b)
    decreases |a|
  {
    if a != [] {
      assert (a + b)[1..] == a[1..] + b;
      Utf8Append(a[1..], b);
    } else {
      assert a + b == b;
    }
  }

  /** ASCII text is its own encoding, one byte per character; anything else takes more bytes. */
  lemma {:induction false} Utf8Ascii(s: string)
    ensures IsAscii(s) ==> |Utf8(s)| == |s| && forall i :: 0 <= i < |s| ==> Utf8(s)[i] == s[i] as int
    ensures !IsAscii(s) ==> |Utf8(s)| > |s|
    decreases |s|
  {
    if s != [] {
      var t := s[1..];
      assert s == [s[0]] + t;
      Utf8Ascii(t);
      if IsAscii(s) {
        forall c | c in t
          ensures c < '\U{80}'
        {
          assert c in s;
        }
        assert s[0] in s;
        var b := Utf8(s);
        assert Utf8Char(s[0]) == [s[0] as int];
        forall i | 0 <= i < |s|
          ensures b[i] == s[i] as int
        {
          if i > 0 {
            assert b[i] == Utf8(t)[i - 1];
          }
        }
      } else if s[0] < '\U{80}' {
        var c :| c in s && !(c < '\U{80}');
        assert c in t;
      }
    }
  }
}
