// Dotted text: splitting and joining, decimal and hexadecimal numerals, OIDs.
module DottedText {
  import opened Wrappers

  type Oid = seq<nat>

  // ----- splitting at a one-character separator, and joining -----

  function Split(sep: char, s: string): (parts: seq<string>)
    ensures parts != []
    ensures forall p :: p in parts ==> sep !in p
  {
    if s == "" then [""] else Grow(sep, s[0], Split(sep, s[1..]))
  }

  function Join(sep: char, parts: seq<string>): string {
    if parts == [] then ""
    else if |parts| == 1 then parts[0]
    else parts[0] + [sep] + Join(sep, parts[1..])
  }

  lemma {:induction false} JoinSplit(sep: char, s: string)
    ensures Join(sep, Split(sep, s)) == s
  {
    if s != "" {
      JoinSplit(sep, s[1..]);
      var rest := Split(sep, s[1..]);
      if s[0] == sep {
        assert ([""] + rest)[1..] == rest;
      } else {
        assert ([[s[0]] + rest[0]] + rest[1..])[1..] == rest[1..];
      }
      assert s == [s[0]] + s[1..];
    }
  }

  // Split on a nonempty text, one character at a time.
  function Grow(sep: char, c: char, rest: seq<string>): (r: seq<string>)
    requires rest != []
    ensures r != []
  {
    if c == sep then [""] + rest else [[c] + rest[0]] + rest[1..]
  }

  lemma GrowConcat(sep: char, c: char, a: seq<string>, b: seq<string>)
    requires a != []
    ensures Grow(sep, c, a + b) == Grow(sep, c, a) + b
  {}

  lemma {:induction false} SplitAtSeparator(sep: char, a: string, b: string)
    ensures Split(sep, a + [sep] + b) == Split(sep, a) + Split(sep, b)
  {
    var s := a + [sep] + b;
    if a == "" {
      assert s[1..] == b;
    } else {
      SplitAtSeparator(sep, a[1..], b);
      assert s[0] == a[0] && s[1..] == a[1..] + [sep] + b;
      GrowConcat(sep, a[0], Split(sep, a[1..]), Split(sep, b));
    }
  }

  lemma {:induction false} SplitPlain(sep: char, s: string)
    requires sep !in s
    ensures Split(sep, s) == [s]
  {
    if s != "" {
      SplitPlain(sep, s[1..]);
      assert s == [s[0]] + s[1..];
    }
  }

  lemma {:induction false} SplitJoin(sep: char, parts: seq<string>)
    requires parts != [] && forall p :: p in parts ==> sep !in p
    ensures Split(sep, Join(sep, parts)) == parts
  {
    SplitPlain(sep, parts[0]);
    if |parts| > 1 {
      SplitJoin(sep, parts[1..]);
      SplitAtSeparator(sep, parts[0], Join(sep, parts[1..]));
      assert [parts[0]] + parts[1..] == parts;
    }
  }

  lemma {:induction false} JoinConcat(sep: char, a: seq<string>, b: seq<string>)
    requires a != [] && b != []
    ensures Join(sep, a + b) == Join(sep, a) + [sep] + Join(sep, b)
  {
    if |a| == 1 {
      assert (a + b)[1..] == b;
    } else {
      JoinConcat(sep, a[1..], b);
      assert (a + b)[1..] == a[1..] + b;
    }
  }

  // ----- decimal and hexadecimal numerals of plain digits -----

  function DigitValue(c: char, base: nat): Option<nat> {
    var v := if '0' <= c <= '9' then c as int - '0' as int
             else if 'a' <= c <= 'f' then c as int - 'a' as int + 10
             else if 'A' <= c <= 'F' then c as int - 'A' as int + 10
             else base;
    if v < base then Some(v) else None
  }

  function DigitChar(d: nat): (c: char)
    requires d < 16
    ensures DigitValue(c, 16) == Some(d)
    ensures forall base: nat :: d < base ==> DigitValue(c, base) == Some(d)
    ensures c != '.' && c != ':' && c != '-'
  {
    if d < 10 then ('0' as int + d) as char else ('a' as int + (d - 10)) as char
  }

  function Numeral(s: string, base: nat): Option<nat>
  {
    if s == "" then None
    else
      var d := DigitValue(s[|s| - 1], base);
      if d == None then None
      else if |s| == 1 then d
      else
        var high := Numeral(s[..|s| - 1], base);
        if high == None then None else Some(high.value * base + d.value)
  }

  function Decimal(n: nat): (s: string)
    ensures s != "" && '.' !in s && ':' !in s && '-' !in s
  {
    if n < 10 then [DigitChar(n)] else Decimal(n / 10) + [DigitChar(n % 10)]
  }

  lemma {:induction false} DecimalRoundTrip(n: nat)
    ensures Numeral(Decimal(n), 10) == Some(n)
  {
    if n >= 10 {
      DecimalRoundTrip(n / 10);
      var s := Decimal(n);
      assert s[..|s| - 1] == Decimal(n / 10);
    }
  }

  // Every part read as a numeral; None when one of them is not, as when int() raises.
  function Numerals(parts: seq<string>, base: nat): (r: Option<seq<nat>>)
    ensures r.Some? ==> |r.value| == |parts|
    ensures r.Some? ==> forall i :: 0 <= i < |parts| ==> Numeral(parts[i], base) == Some(r.value[i])
    ensures r.None? ==> exists i :: 0 <= i < |parts| && Numeral(parts[i], base) == None
  {
    if parts == [] then Some([])
    else
      var head := Numeral(parts[0], base);
      var tail := Numerals(parts[1..], base);
      if head == None || tail == None then None else Some([head.value] + tail.value)
  }

  // ----- OIDs -----

  function Arcs(oid: Oid): (parts: seq<string>)
    ensures |parts| == |oid| && forall i :: 0 <= i < |oid| ==> parts[i] == Decimal(oid[i])
  {
    seq(|oid|, i requires 0 <= i < |oid| => Decimal(oid[i]))
  }

  function OidText(oid: Oid): string {
    Join('.', Arcs(oid))
  }

  lemma OidTextConcat(a: Oid, b: Oid)
    requires a != [] && b != []
    ensures OidText(a + b) == OidText(a) + "." + OidText(b)
  {
    assert Arcs(a + b) == Arcs(a) + Arcs(b);
    JoinConcat('.', Arcs(a), Arcs(b));
  }

  function StripDot(s: string): string {
    if s != "" && s[0] == '.' then s[1..] else s
  }

  // The text without its leading dots.
  function StripDots(s: string): string {
    if s != "" && s[0] == '.' then StripDots(s[1..]) else s
  }

  function ParseOid(s: string): Option<Oid> {
    Numerals(Split('.', StripDot(s)), 10)
  }

  lemma OidTextSplit(oid: Oid)
    requires oid != []
    ensures Split('.', OidText(oid)) == Arcs(oid)
    ensures StripDots(OidText(oid)) == StripDot(OidText(oid)) == OidText(oid)
  {
    SplitJoin('.', Arcs(oid));
    var s := OidText(oid);
    assert s != "" && s[0] == Decimal(oid[0])[0];
  }

  // Writing an OID as text and reading it back gives the same OID.
  lemma OidRoundTrip(oid: Oid)
    requires oid != []
    ensures ParseOid(OidText(oid)) == Some(oid)
  {
    OidTextSplit(oid);
    forall i | 0 <= i < |oid| ensures Numeral(Arcs(oid)[i], 10) == Some(oid[i]) {
      DecimalRoundTrip(oid[i]);
    }
    assert ParseOid(OidText(oid)).value == oid;
  }

  // A text that reads as an OID has at most one leading dot.
  lemma ParsedDots(s: string)
    requires ParseOid(s).Some?
    ensures StripDots(s) == StripDot(s) && ParseOid(s).value != []
  {
    var t := StripDot(s);
    assert t != "" && t[0] != '.' by {
      assert Numeral(Split('.', t)[0], 10).Some?;
    }
  }

  // The walker's subtree test on texts.
  predicate UnderText(prefix: string, text: string) {
    text == prefix || prefix + "." <= text
  }

  lemma SplitOfUnder(prefix: string, text: string)
    requires UnderText(prefix, text)
    ensures Split('.', prefix) <= Split('.', text)
  {
    if text != prefix {
      var b := text[|prefix| + 1..];
      assert text == prefix + ['.'] + b;
      SplitAtSeparator('.', prefix, b);
    }
  }

  // A text that passes the test against an OID is itself the text of a prefix of it.
  lemma UnderTextIsPrefix(text: string, p: Oid, oid: Oid)
    requires Numerals(Split('.', text), 10) == Some(p) && oid != []
    requires UnderText(text, OidText(oid))
    ensures text == OidText(p) && p <= oid
  {
    OidTextSplit(oid);
    SplitOfUnder(text, OidText(oid));
    var parts := Split('.', text);
    forall i | 0 <= i < |p| ensures p[i] == oid[i] && parts[i] == Decimal(p[i]) {
      DecimalRoundTrip(oid[i]);
      assert parts[i] == Arcs(oid)[i];
    }
    assert parts == Arcs(p);
    JoinSplit('.', text);
  }

  lemma PrefixIsUnderText(p: Oid, oid: Oid)
    requires p != [] && p <= oid
    ensures UnderText(OidText(p), OidText(oid))
  {
    if p != oid {
      assert p + oid[|p|..] == oid;
      OidTextConcat(p, oid[|p|..]);
    }
  }

  // The test on the prefix text means exactly "is an extension of the prefix" when the
  // text is the canonical one; for any other text naming the same OID (as "01.3" does)
  // it fails on every OID.
  lemma UnderTextMeansPrefix(text: string, p: Oid, oid: Oid)
    requires ParseOid(text) == Some(p) && oid != []
    ensures UnderText(StripDots(text), OidText(oid)) <==> (StripDots(text) == OidText(p) && p <= oid)
  {
    ParsedDots(text);
    if UnderText(StripDots(text), OidText(oid)) {
      UnderTextIsPrefix(StripDots(text), p, oid);
    }
    if p <= oid {
      PrefixIsUnderText(p, oid);
    }
  }
}
