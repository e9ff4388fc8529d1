/** JavaScript strings, their UTF-8 bytes, and lists of fields joined by newlines. */
module Texts {
  import opened Hashing

  /** A string is a list of UTF-16 code units; surrogates may stand alone. */
  type Unit = u: int | 0 <= u < 0x10000

  type Text = seq<Unit>

  /** A text of ASCII characters. */
  function Ascii(s: string): (t: Text)
    ensures |t| == |s|
  {
    seq(|s|, (i: nat) requires i < |s| => AsciiUnit(s[i]))
  }

  function AsciiUnit(c: char): Unit {
    if c as int < 0x80 then c as int else REPLACEMENT
  }

  const REPLACEMENT: Unit := 0xFFFD

  predicate High(u: Unit) {
    0xD800 <= u < 0xDC00
  }

  predicate Low(u: Unit) {
    0xDC00 <= u < 0xE000
  }

  // ---------- code points ----------

  predicate StartsWithPair(t: Text) {
    |t| >= 2 && High(t[0]) && Low(t[1])
  }

  /** How many units the first code point takes. */
  function HeadLength(t: Text): (n: nat)
    requires t != []
    ensures 1 <= n <= |t|
  {
    if StartsWithPair(t) then 2 else 1
  }

  /** The first code point; a lone surrogate is read as U+FFFD. */
  function HeadPoint(t: Text): (v: nat)
    requires t != []
    ensures v < 0x110000
  {
    if StartsWithPair(t) then 0x10000 + (t[0] - 0xD800) * 0x400 + (t[1] - 0xDC00)
    else if High(t[0]) || Low(t[0]) then REPLACEMENT
    else t[0]
  }

  function UnitsOf(v: nat): Text
    requires v < 0x110000
  {
    if v < 0x10000 then [v] else [0xD800 + (v - 0x10000) / 0x400, 0xDC00 + (v - 0x10000) % 0x400]
  }

  /** The text with U+FFFD for each lone surrogate (`toWellFormed`). */
  function Repaired(t: Text): Text {
    if t == [] then [] else UnitsOf(HeadPoint(t)) + Repaired(t[HeadLength(t)..])
  }

  predicate LoneSurrogate(t: Text, i: nat)
    requires i < |t|
  {
    || (High(t[i]) && !(i + 1 < |t| && Low(t[i + 1])))
    || (Low(t[i]) && !(i > 0 && High(t[i - 1])))
  }

  predicate WellFormed(t: Text) {
    forall i | 0 <= i < |t| :: !LoneSurrogate(t, i)
  }

  lemma UnitsOfHead(t: Text)
    requires t != []
    ensures UnitsOf(HeadPoint(t))
         == if StartsWithPair(t) then t[..2] else if High(t[0]) || Low(t[0]) then [REPLACEMENT] else t[..1]
  {
    if StartsWithPair(t) {
      var v := HeadPoint(t) - 0x10000;
      assert v / 0x400 == t[0] - 0xD800 && v % 0x400 == t[1] - 0xDC00;
    }
  }

  /** Texts without lone surrogates are the ones that stay as they are. */
  lemma {:induction false} RepairedIsSame(t: Text)
    ensures Repaired(t) == t <==> WellFormed(t)
  {
    if t != [] {
      var n := HeadLength(t);
      var rest := t[n..];
      UnitsOfHead(t);
      RepairedIsSame(rest);
      HeadOfWellFormed(t);
      assert t == t[..n] + rest;
      assert |UnitsOf(HeadPoint(t))| == n;
      assert Repaired(t)[..n] == UnitsOf(HeadPoint(t)) && Repaired(t)[n..] == Repaired(rest);
    }
  }

  lemma HeadOfWellFormed(t: Text)
    requires t != []
    ensures WellFormed(t) <==> (StartsWithPair(t) || !(High(t[0]) || Low(t[0]))) && WellFormed(t[HeadLength(t)..])
  {
    var n := HeadLength(t);
    var rest := t[n..];
    if StartsWithPair(t) || !(High(t[0]) || Low(t[0])) {
      forall i | 0 <= i < |rest|
        ensures LoneSurrogate(rest, i) <==> LoneSurrogate(t, i + n)
      {
        assert rest[i] == t[i + n] && (i > 0 ==> rest[i - 1] == t[i + n - 1]);
      }
      assert forall i | n <= i < |t| :: LoneSurrogate(t, i) <==> LoneSurrogate(rest, i - n);
    } else {
      assert LoneSurrogate(t, 0);
    }
  }

  // ---------- UTF-8 ----------

  function Utf8Point(v: nat): (b: Bytes)
    requires v < 0x110000
    ensures b != []
  {
    if v < 0x80 then [v]
    else if v < 0x800 then [0xC0 + v / 64, 0x80 + v % 64]
    else if v < 0x10000 then [0xE0 + v / 64 / 64, 0x80 + v / 64 % 64, 0x80 + v % 64]
    else [0xF0 + v / 64 / 64 / 64, 0x80 + v / 64 / 64 % 64, 0x80 + v / 64 % 64, 0x80 + v % 64]
  }

  function Utf8(t: Text): Bytes {
    if t == [] then [] else Utf8Point(HeadPoint(t)) + Utf8(t[HeadLength(t)..])
  }

  /** The number of bytes of a code point, told by its first byte. */
  function PointLength(lead: Byte): nat {
    if lead < 0x80 then 1 else if lead < 0xE0 then 2 else if lead < 0xF0 then 3 else 4
  }

  lemma PointLengthOfLead(v: nat)
    requires v < 0x110000
    ensures |Utf8Point(v)| == PointLength(Utf8Point(v)[0])
  {
  }

  lemma Utf8PointInjective(v: nat, w: nat)
    requires v < 0x110000 && w < 0x110000 && Utf8Point(v) == Utf8Point(w)
    ensures v == w
  {
    var a, b := Utf8Point(v), Utf8Point(w);
    assert |a| == |b| && a[0] == b[0];
    if |a| > 1 { assert a[1] == b[1]; }
    if |a| > 2 { assert a[2] == b[2]; }
    if |a| > 3 { assert a[3] == b[3]; }
  }

  /** Two texts have the same bytes exactly if they differ in nothing but lone surrogates. */
  lemma {:induction false} Utf8Exact(s: Text, t: Text)
    ensures Utf8(s) == Utf8(t) <==> Repaired(s) == Repaired(t)
  {
    hide HeadPoint, HeadLength, Utf8Point, UnitsOf;
    if s != [] && t != [] {
      Utf8Exact(s[HeadLength(s)..], t[HeadLength(t)..]);
      SplitBytes(HeadPoint(s), Utf8(s[HeadLength(s)..]), HeadPoint(t), Utf8(t[HeadLength(t)..]));
      SplitUnits(HeadPoint(s), Repaired(s[HeadLength(s)..]), HeadPoint(t), Repaired(t[HeadLength(t)..]), s, t);
    } else {
      NotEmpty(s);
      NotEmpty(t);
    }
  }

  lemma NotEmpty(t: Text)
    ensures Utf8(t) == [] <==> t == []
    ensures Repaired(t) == [] <==> t == []
  {
  }

  lemma SplitBytes(v: nat, x: Bytes, w: nat, y: Bytes)
    requires v < 0x110000 && w < 0x110000
    ensures Utf8Point(v) + x == Utf8Point(w) + y <==> v == w && x == y
  {
    var a, b := Utf8Point(v), Utf8Point(w);
    PointLengthOfLead(v);
    PointLengthOfLead(w);
    hide Utf8Point;
    if a + x == b + y {
      assert (a + x)[0] == a[0] && (b + y)[0] == b[0];
      assert a == (a + x)[..|a|] && b == (b + y)[..|a|];
      assert x == (a + x)[|a|..] && y == (b + y)[|a|..];
      Utf8PointInjective(v, w);
    }
  }

  /** The first unit of a code point tells whether a second follows. */
  lemma SplitUnits(v: nat, x: Text, w: nat, y: Text, s: Text, t: Text)
    requires s != [] && t != [] && v == HeadPoint(s) && w == HeadPoint(t)
    ensures UnitsOf(v) + x == UnitsOf(w) + y <==> v == w && x == y
  {
    var a, b := UnitsOf(v), UnitsOf(w);
    UnitsOfHead(s);
    UnitsOfHead(t);
    if a + x == b + y {
      assert (a + x)[0] == a[0] && (b + y)[0] == b[0];
      assert a == (a + x)[..|a|] && b == (b + y)[..|a|];
      assert x == (a + x)[|a|..] && y == (b + y)[|a|..];
      assert |a| == 2 ==> a[1] == b[1];
    }
  }

  function LowSix(b: Byte): nat {
    b % 64
  }

  /** The code point of a sequence of `n` bytes: the low bits of the first and six of each other (RFC 3629). */
  function PointOf(b: Bytes, n: nat): nat
    requires 1 <= n <= 4 && n <= |b|
  {
    var lead: int := b[0];
    if n == 1 then lead
    else if n == 2 then lead % 32 * 64 + LowSix(b[1])
    else if n == 3 then (lead % 16 * 64 + LowSix(b[1])) * 64 + LowSix(b[2])
    else ((lead % 8 * 64 + LowSix(b[1])) * 64 + LowSix(b[2])) * 64 + LowSix(b[3])
  }

  /** Reads UTF-8 up to the first sequence that is cut off or beyond the last code point. */
  function ReadUtf8(b: Bytes): Text {
    if b == [] || |b| < PointLength(b[0]) || PointOf(b, PointLength(b[0])) >= 0x110000 then []
    else UnitsOf(PointOf(b, PointLength(b[0]))) + ReadUtf8(b[PointLength(b[0])..])
  }

  lemma PointOfPoint(v: nat, rest: Bytes)
    requires v < 0x110000
    ensures var b := Utf8Point(v) + rest;
            |Utf8Point(v)| == PointLength(b[0]) && PointOf(b, |Utf8Point(v)|) == v
  {
    var b := Utf8Point(v) + rest;
    PointLengthOfLead(v);
    PointOfPrefix(Utf8Point(v), rest, |Utf8Point(v)|);
    PointAlone(v);
  }

  lemma PointOfPrefix(b: Bytes, rest: Bytes, n: nat)
    requires 1 <= n <= 4 && n <= |b|
    ensures PointOf(b + rest, n) == PointOf(b, n)
  {
  }

  lemma PointAlone(v: nat)
    requires v < 0x110000
    ensures PointOf(Utf8Point(v), |Utf8Point(v)|) == v
  {
    hide LowSix;
    LowSixOf(v % 64);
    LowSixOf(v / 64 % 64);
    LowSixOf(v / 64 / 64 % 64);
    LeadBits(v);
  }

  lemma LowSixOf(x: nat)
    requires x < 64
    ensures LowSix(0x80 + x) == x
  {
  }

  /** What is left of a code point in its first byte. */
  lemma LeadBits(v: nat)
    requires v < 0x110000
    ensures v < 0x800 ==> (0xC0 + v / 64) % 32 == v / 64
    ensures v < 0x10000 ==> (0xE0 + v / 64 / 64) % 16 == v / 64 / 64
    ensures (0xF0 + v / 64 / 64 / 64) % 8 == v / 64 / 64 / 64
  {
  }

  /** Reading the bytes of a text gives the text back, with its lone surrogates replaced. */
  lemma {:induction false} Utf8RoundTrip(t: Text)
    ensures ReadUtf8(Utf8(t)) == Repaired(t)
  {
    hide HeadPoint, HeadLength, Utf8Point, UnitsOf, PointOf, PointLength;
    if t != [] {
      var v, rest := HeadPoint(t), Utf8(t[HeadLength(t)..]);
      Utf8RoundTrip(t[HeadLength(t)..]);
      PointOfPoint(v, rest);
      assert Utf8(t) == Utf8Point(v) + rest;
      assert Utf8(t)[|Utf8Point(v)|..] == rest;
    }
  }

  /** On texts without lone surrogates UTF-8 loses nothing. */
  lemma Utf8Injective(s: Text, t: Text)
    requires WellFormed(s) && WellFormed(t) && Utf8(s) == Utf8(t)
    ensures s == t
  {
    Utf8Exact(s, t);
    RepairedIsSame(s);
    RepairedIsSame(t);
  }

  /** A lone surrogate and U+FFFD have the same bytes. */
  lemma LoneSurrogateCollides()
    ensures Utf8([0xD800]) == Utf8([REPLACEMENT]) && Repaired([0xD800]) == [REPLACEMENT]
  {
  }

  /** Texts can be repaired part by part, unless a pair lies across the seam. */
  lemma {:induction false} RepairedConcat(a: Text, b: Text)
    requires b == [] || !Low(b[0])
    ensures Repaired(a + b) == Repaired(a) + Repaired(b)
  {
    if a == [] {
      assert a + b == b;
    } else {
      var n := HeadLength(a);
      assert HeadLength(a + b) == n && HeadPoint(a + b) == HeadPoint(a);
      assert (a + b)[n..] == a[n..] + b;
      RepairedConcat(a[n..], b);
    }
  }

  // ---------- newline-joined fields ----------

  const NEWLINE: Unit := 10

  /** `fields.join("\n")` */
  function JoinLines(fields: seq<Text>): Text
    requires fields != []
  {
    if |fields| == 1 then fields[0] else fields[0] + [NEWLINE] + JoinLines(fields[1..])
  }

  predicate NewlineFree(fields: seq<Text>) {
    forall i | 0 <= i < |fields| :: NEWLINE !in fields[i]
  }

  /** The index of the first newline, or the length of the text. */
  function LineEnd(t: Text): nat {
    if t == [] || t[0] == NEWLINE then 0 else 1 + LineEnd(t[1..])
  }

  lemma {:induction false} LineEndOfLine(a: Text, rest: Text)
    requires NEWLINE !in a && (rest == [] || rest[0] == NEWLINE)
    ensures LineEnd(a + rest) == |a|
  {
    if a == [] {
      assert a + rest == rest;
    } else {
      LineEndOfLine(a[1..], rest);
      assert (a + rest)[1..] == a[1..] + rest;
    }
  }

  lemma LineEndOfJoin(f: seq<Text>)
    requires f != [] && NewlineFree(f)
    ensures LineEnd(JoinLines(f)) == |f[0]| <= |JoinLines(f)|
    ensures |f| == 1 <==> |f[0]| == |JoinLines(f)|
  {
    if |f| == 1 {
      LineEndOfLine(f[0], []);
      assert f[0] + [] == f[0];
    } else {
      LineEndOfLine(f[0], [NEWLINE] + JoinLines(f[1..]));
      assert f[0] + [NEWLINE] + JoinLines(f[1..]) == f[0] + ([NEWLINE] + JoinLines(f[1..]));
    }
  }

  /** On newline-free fields the joined text determines the fields, their number included. */
  lemma {:induction false} JoinLinesInjective(f: seq<Text>, g: seq<Text>)
    requires f != [] && g != [] && NewlineFree(f) && NewlineFree(g)
    requires JoinLines(f) == JoinLines(g)
    ensures f == g
  {
    LineEndOfJoin(f);
    LineEndOfJoin(g);
    var t := JoinLines(f);
    assert f[0] == t[..|f[0]|] && g[0] == t[..|f[0]|];
    if |f| > 1 {
      assert JoinLines(f[1..]) == t[|f[0]| + 1..] && JoinLines(g[1..]) == t[|f[0]| + 1..];
      JoinLinesInjective(f[1..], g[1..]);
      assert f == [f[0]] + f[1..] && g == [g[0]] + g[1..];
    }
  }

  function RepairedAll(fields: seq<Text>): (r: seq<Text>)
    ensures |r| == |fields|
  {
    seq(|fields|, (i: nat) requires i < |fields| => Repaired(fields[i]))
  }

  lemma {:induction false} RepairedHasNoNewline(t: Text)
    ensures NEWLINE in Repaired(t) <==> NEWLINE in t
  {
    if t != [] {
      var n := HeadLength(t);
      UnitsOfHead(t);
      RepairedHasNoNewline(t[n..]);
      assert t == t[..n] + t[n..];
      hide Repaired;
      assert NEWLINE in t <==> NEWLINE in t[..n] || NEWLINE in t[n..];
    }
  }

  lemma {:induction false} RepairedJoin(f: seq<Text>)
    requires f != []
    ensures Repaired(JoinLines(f)) == JoinLines(RepairedAll(f))
  {
    hide *;
    JoinUnfolds(f);
    JoinUnfolds(RepairedAll(f));
    RepairedHead(f);
    if |f| > 1 {
      var rest := JoinLines(f[1..]);
      RepairedJoin(f[1..]);
      RepairedNewline(rest);
      NoSurrogate();
      RepairedConcat(f[0], [NEWLINE] + rest);
      ThreeParts(f[0], [NEWLINE], rest);
      ThreeParts(Repaired(f[0]), [NEWLINE], Repaired(rest));
    }
  }

  lemma ThreeParts(a: Text, b: Text, c: Text)
    ensures a + b + c == a + (b + c)
  {
  }

  lemma NoSurrogate()
    ensures !Low(NEWLINE)
  {
  }

  lemma RepairedHead(f: seq<Text>)
    requires f != []
    ensures RepairedAll(f)[0] == Repaired(f[0]) && RepairedAll(f)[1..] == RepairedAll(f[1..])
  {
    hide Repaired;
  }

  lemma JoinUnfolds(f: seq<Text>)
    requires f != []
    ensures JoinLines(f) == if |f| == 1 then f[0] else f[0] + [NEWLINE] + JoinLines(f[1..])
  {
  }

  lemma RepairedNewline(rest: Text)
    ensures Repaired([NEWLINE] + rest) == [NEWLINE] + Repaired(rest)
  {
    assert ([NEWLINE] + rest)[1..] == rest;
  }

  /** The bytes of newline-joined fields determine the fields up to lone surrogates, and no further. */
  lemma JoinedBytesExact(f: seq<Text>, g: seq<Text>)
    requires f != [] && g != [] && NewlineFree(f) && NewlineFree(g)
    ensures Utf8(JoinLines(f)) == Utf8(JoinLines(g)) <==> RepairedAll(f) == RepairedAll(g)
  {
    hide Utf8, JoinLines, Repaired;
    var p, q := RepairedAll(f), RepairedAll(g);
    Utf8Exact(JoinLines(f), JoinLines(g));
    RepairedJoin(f);
    RepairedJoin(g);
    forall i | 0 <= i < |f|
      ensures NEWLINE !in p[i]
    {
      RepairedHasNoNewline(f[i]);
    }
    forall i | 0 <= i < |g|
      ensures NEWLINE !in q[i]
    {
      RepairedHasNoNewline(g[i]);
    }
    if JoinLines(p) == JoinLines(q) {
      JoinLinesInjective(p, q);
    }
  }
}
