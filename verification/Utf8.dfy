/** Truncation of stored text on a rune boundary: truncateStr of internal/store/store.go against section 4 of RFC 3629. */
module Utf8 {

  type Text = seq<bv8>

  predicate Continuation(b: bv8) {
    b & 0xC0 == 0x80
  }

  /** The length of the well-formed rune at the start of `s`; 0 when there is none. */
  function RuneLength(s: Text): (n: nat)
    ensures n <= 4 && n <= |s|
  {
    if s == [] then 0
    else if s[0] <= 0x7F then 1
    else if |s| < 2 then 0
    else if 0xC2 <= s[0] <= 0xDF then if Continuation(s[1]) then 2 else 0
    else if |s| < 3 || !Continuation(s[2]) then 0
    else if s[0] == 0xE0 then if 0xA0 <= s[1] <= 0xBF then 3 else 0
    else if s[0] == 0xED then if 0x80 <= s[1] <= 0x9F then 3 else 0
    else if 0xE1 <= s[0] <= 0xEF then if Continuation(s[1]) then 3 else 0
    else if |s| < 4 || !Continuation(s[3]) then 0
    else if s[0] == 0xF0 then if 0x90 <= s[1] <= 0xBF then 4 else 0
    else if 0xF1 <= s[0] <= 0xF3 then if Continuation(s[1]) then 4 else 0
    else if s[0] == 0xF4 then if 0x80 <= s[1] <= 0x8F then 4 else 0
    else 0
  }

  predicate Valid(s: Text) {
    s == [] || (RuneLength(s) > 0 && Valid(s[RuneLength(s)..]))
  }

  /** The length that the first byte of a rune announces; 0 for a byte that starts none. */
  function Announced(b: bv8): (n: nat)
    ensures n <= 4
  {
    if b & 0x80 == 0 then 1
    else if b & 0xE0 == 0xC0 then 2
    else if b & 0xF0 == 0xE0 then 3
    else if b & 0xF8 == 0xF0 then 4
    else 0
  }

  /** The `n - 1` bytes after offset `i` are continuations. */
  predicate Tail(s: Text, i: nat, n: nat) {
    i + n <= |s| && forall k :: i < k < i + n ==> Continuation(s[k])
  }

  /** A well-formed rune: its first byte announces its length, and the others are continuations. */
  lemma RuneShape(s: Text)
    requires RuneLength(s) > 0
    ensures Announced(s[0]) == RuneLength(s) && !Continuation(s[0]) && Tail(s, 0, RuneLength(s))
  {
  }

  lemma TailShift(s: Text, first: nat, i: nat, n: nat)
    requires first <= i && first <= |s| && Tail(s[first..], i - first, n)
    ensures Tail(s, i, n)
  {
    assert forall k :: i < k < i + n ==> s[k] == s[first..][k - first];
  }

  lemma RunePrefix(s: Text, n: nat)
    requires RuneLength(s) <= n <= |s|
    ensures RuneLength(s) > 0 ==> RuneLength(s[..n]) == RuneLength(s)
  {
  }

  lemma RuneOfPrefix(s: Text, n: nat)
    requires n <= |s|
    ensures RuneLength(s[..n]) > 0 ==> RuneLength(s[..n]) == RuneLength(s)
  {
  }

  /** In valid text the valid prefixes are those that do not end before a continuation byte. */
  lemma {:induction false} PrefixValidIff(s: Text, n: nat)
    requires Valid(s) && n <= |s|
    ensures Valid(s[..n]) <==> n == |s| || !Continuation(s[n])
    decreases |s|
  {
    if n == |s| {
      assert s[..n] == s;
    } else {
      RuneShape(s);
      var first := RuneLength(s);
      if n >= first {
        RunePrefix(s, n);
        PrefixValidIff(s[first..], n - first);
        assert s[..n][first..] == s[first..][..n - first];
        assert s[first..][n - first] == s[n];
      } else if n > 0 {
        RuneOfPrefix(s, n);
      }
    }
  }

  /** In valid text a byte that starts a rune is followed by the rest of that rune, and then by another start. */
  lemma {:induction false} RuneAt(s: Text, i: nat)
    requires Valid(s) && i < |s| && !Continuation(s[i])
    ensures var n := Announced(s[i]);
      1 <= n && Tail(s, i, n) && (i + n < |s| ==> !Continuation(s[i + n]))
    decreases |s|
  {
    hide RuneLength, Announced, Continuation, Tail, Valid;
    StartsAfter(s, i);
    if i == 0 {
      RuneFollowed(s);
    } else {
      var first := RuneLength(s);
      RuneAt(s[first..], i - first);
      NextByte(s, first, i);
      TailShift(s, first, i, Announced(s[i]));
      NextByte(s, first, i + Announced(s[i]));
      TailInside(s, i, Announced(s[i]));
    }
  }

  lemma TailInside(s: Text, i: nat, n: nat)
    requires Tail(s, i, n)
    ensures i + n <= |s|
  {
  }

  lemma StartsAfter(s: Text, i: nat)
    requires Valid(s) && i < |s| && !Continuation(s[i])
    ensures 1 <= RuneLength(s) && Valid(s[RuneLength(s)..]) && (i == 0 || RuneLength(s) <= i)
  {
    RuneShape(s);
  }

  lemma NextByte(s: Text, first: nat, j: nat)
    requires first <= j && first <= |s|
    ensures j < |s| ==> s[first..][j - first] == s[j]
  {
  }

  lemma RuneFollowed(s: Text)
    requires Valid(s) && s != []
    ensures 1 <= RuneLength(s) == Announced(s[0]) && Tail(s, 0, RuneLength(s))
    ensures RuneLength(s) < |s| ==> !Continuation(s[RuneLength(s)])
  {
    RuneShape(s);
    if RuneLength(s) < |s| {
      RuneShape(s[RuneLength(s)..]);
    }
  }

  /** Every byte of valid text belongs to a rune that starts at most three bytes before it. */
  lemma {:induction false} StartNearby(s: Text, i: nat) returns (b: nat)
    requires Valid(s) && i < |s|
    ensures b <= i < b + Announced(s[b]) && !Continuation(s[b])
    ensures Tail(s, b, i - b + 1)
    decreases |s|
  {
    RuneShape(s);
    var first := RuneLength(s);
    if i < first {
      b := 0;
    } else {
      hide RuneLength, Announced, Continuation, Tail;
      var c := StartNearby(s[first..], i - first);
      b := first + c;
      assert s[b] == s[first..][c];
      TailShift(s, first, b, i - b + 1);
    }
  }

  /** The longest valid prefix within the budget. */
  ghost predicate Longest(s: Text, maxLen: nat, r: Text) {
    && r <= s && |r| <= maxLen && Valid(r)
    && forall n :: 0 <= n <= |s| && n <= maxLen && Valid(s[..n]) ==> n <= |r|
  }

  method TruncateStr(s: Text, maxLen: nat) returns (r: Text)
    ensures r <= s && |r| <= maxLen
    ensures Valid(s) ==> Longest(s, maxLen, r)
    ensures |r| == |s| || |r| > maxLen - 4
  {
    if |s| <= maxLen {
      assert s[..|s|] == s;
      return s;
    }
    var i := maxLen - 1;
    while i >= 0 && i > maxLen - 4 && s[i] & 0xC0 == 0x80
      invariant maxLen - 4 <= i < maxLen && -1 <= i
      invariant forall k :: i < k < maxLen ==> Continuation(s[k])
    {
      i := i - 1;
    }
    CutIsLongest(s, maxLen, i);
    if i < 0 || i <= maxLen - 4 {
      return s[..maxLen];
    }
    var b := s[i];
    var runeLen;
    if b & 0x80 == 0 {
      runeLen := 1;
    } else if b & 0xE0 == 0xC0 {
      runeLen := 2;
    } else if b & 0xF0 == 0xE0 {
      runeLen := 3;
    } else if b & 0xF8 == 0xF0 {
      runeLen := 4;
    } else {
      return s[..maxLen];
    }
    if i + runeLen > maxLen {
      return s[..i];
    }
    return s[..maxLen];
  }

  /** Where the scan stopped tells whether the cut at the budget splits a rune. */
  lemma CutIsLongest(s: Text, maxLen: nat, i: int)
    requires maxLen < |s| && maxLen - 4 <= i < maxLen && -1 <= i
    requires forall k :: i < k < maxLen ==> Continuation(s[k])
    requires i >= 0 && i > maxLen - 4 ==> !Continuation(s[i])
    ensures Valid(s) && i >= 0 && i > maxLen - 4 && i + Announced(s[i]) > maxLen ==> Longest(s, maxLen, s[..i])
    ensures Valid(s) && !(i >= 0 && i > maxLen - 4 && i + Announced(s[i]) > maxLen) ==> Longest(s, maxLen, s[..maxLen])
  {
    hide RuneLength, Announced, Continuation;
    if Valid(s) {
      if maxLen == 0 {
        assert s[..0] == [];
      } else {
        var b := StartNearby(s, maxLen - 1);
        RuneAt(s, b);
        hide Valid;
        PrefixValidIff(s, b);
        PrefixValidIff(s, maxLen);
        forall n | 0 <= n <= |s| && n <= maxLen && Valid(s[..n])
          ensures n <= b || n == maxLen
        {
          PrefixValidIff(s, n);
        }
      }
    }
  }

  // ---- Valid text is what scalar values are encoded as ----

  /** A Unicode scalar value. */
  predicate Scalar(c: bv32) {
    c < 0xD800 || 0xE000 <= c <= 0x10_FFFF
  }

  /** The encoding of section 3 of RFC 3629. */
  function Encoded(c: bv32): (s: Text)
    requires Scalar(c)
    ensures 1 <= |s| <= 4
  {
    if c < 0x80 then [c as bv8]
    else if c < 0x800 then [0xC0 | ((c >> 6) as bv8), 0x80 | ((c & 0x3F) as bv8)]
    else if c < 0x1_0000 then [0xE0 | ((c >> 12) as bv8), 0x80 | (((c >> 6) & 0x3F) as bv8), 0x80 | ((c & 0x3F) as bv8)]
    else
      [0xF0 | ((c >> 18) as bv8), 0x80 | (((c >> 12) & 0x3F) as bv8), 0x80 | (((c >> 6) & 0x3F) as bv8),
       0x80 | ((c & 0x3F) as bv8)]
  }

  /** An encoded scalar value is a well-formed rune, whatever follows it. */
  lemma RuneOfEncoded(c: bv32, rest: Text)
    requires Scalar(c)
    ensures RuneLength(Encoded(c) + rest) == |Encoded(c)|
  {
  }

  lemma TwoBits(a: bv8, b: bv8)
    requires 0xC2 <= a <= 0xDF && Continuation(b)
    ensures var c := ((a & 0x1F) as bv32 << 6) | ((b & 0x3F) as bv32);
      0x80 <= c < 0x800 && 0xC0 | ((c >> 6) as bv8) == a && 0x80 | ((c & 0x3F) as bv8) == b
  {
  }

  lemma TwoBytes(a: bv8, b: bv8) returns (c: bv32)
    requires 0xC2 <= a <= 0xDF && Continuation(b)
    ensures Scalar(c) && Encoded(c) == [a, b]
  {
    c := ((a & 0x1F) as bv32 << 6) | ((b & 0x3F) as bv32);
    TwoBits(a, b);
  }

  lemma ThreeBits(a: bv8, b: bv8, d: bv8)
    requires 0xE0 <= a <= 0xEF && Continuation(b) && Continuation(d)
    requires (a == 0xE0 ==> 0xA0 <= b) && (a == 0xED ==> b <= 0x9F)
    ensures var c := ((a & 0x0F) as bv32 << 12) | ((b & 0x3F) as bv32 << 6) | ((d & 0x3F) as bv32);
      && 0x800 <= c < 0x1_0000 && Scalar(c)
      && 0xE0 | ((c >> 12) as bv8) == a && 0x80 | (((c >> 6) & 0x3F) as bv8) == b && 0x80 | ((c & 0x3F) as bv8) == d
  {
  }

  lemma ThreeBytes(a: bv8, b: bv8, d: bv8) returns (c: bv32)
    requires 0xE0 <= a <= 0xEF && Continuation(b) && Continuation(d)
    requires (a == 0xE0 ==> 0xA0 <= b) && (a == 0xED ==> b <= 0x9F)
    ensures Scalar(c) && Encoded(c) == [a, b, d]
  {
    c := ((a & 0x0F) as bv32 << 12) | ((b & 0x3F) as bv32 << 6) | ((d & 0x3F) as bv32);
    ThreeBits(a, b, d);
  }

  lemma FourBits(a: bv8, b: bv8, d: bv8, e: bv8)
    requires 0xF0 <= a <= 0xF4 && Continuation(b) && Continuation(d) && Continuation(e)
    requires (a == 0xF0 ==> 0x90 <= b) && (a == 0xF4 ==> b <= 0x8F)
    ensures var c := ((a & 0x07) as bv32 << 18) | ((b & 0x3F) as bv32 << 12)
                   | ((d & 0x3F) as bv32 << 6) | ((e & 0x3F) as bv32);
      && 0x1_0000 <= c <= 0x10_FFFF
      && 0xF0 | ((c >> 18) as bv8) == a && 0x80 | (((c >> 12) & 0x3F) as bv8) == b
      && 0x80 | (((c >> 6) & 0x3F) as bv8) == d && 0x80 | ((c & 0x3F) as bv8) == e
  {
  }

  lemma FourBytes(a: bv8, b: bv8, d: bv8, e: bv8) returns (c: bv32)
    requires 0xF0 <= a <= 0xF4 && Continuation(b) && Continuation(d) && Continuation(e)
    requires (a == 0xF0 ==> 0x90 <= b) && (a == 0xF4 ==> b <= 0x8F)
    ensures Scalar(c) && Encoded(c) == [a, b, d, e]
  {
    c := ((a & 0x07) as bv32 << 18) | ((b & 0x3F) as bv32 << 12)
      | ((d & 0x3F) as bv32 << 6) | ((e & 0x3F) as bv32);
    FourBits(a, b, d, e);
  }

  lemma OneByte(a: bv8) returns (c: bv32)
    requires a <= 0x7F
    ensures Scalar(c) && Encoded(c) == [a]
  {
    c := a as bv32;
  }

  /** What the length of a rune says of its bytes. */
  lemma RuneBytes(s: Text)
    requires RuneLength(s) > 0
    ensures match RuneLength(s)
      case 1 => s[0] <= 0x7F
      case 2 => 0xC2 <= s[0] <= 0xDF && Continuation(s[1])
      case 3 =>
        && 0xE0 <= s[0] <= 0xEF && Continuation(s[1]) && Continuation(s[2])
        && (s[0] == 0xE0 ==> 0xA0 <= s[1]) && (s[0] == 0xED ==> s[1] <= 0x9F)
      case _ =>
        && 0xF0 <= s[0] <= 0xF4 && Continuation(s[1]) && Continuation(s[2]) && Continuation(s[3])
        && (s[0] == 0xF0 ==> 0x90 <= s[1]) && (s[0] == 0xF4 ==> s[1] <= 0x8F)
  {
  }

  /** A well-formed rune is the encoding of a scalar value. */
  lemma EncodedOfRune(s: Text) returns (c: bv32)
    requires RuneLength(s) > 0
    ensures Scalar(c) && Encoded(c) == s[..RuneLength(s)]
  {
    hide RuneLength, Continuation, Encoded, Scalar;
    RuneBytes(s);
    match RuneLength(s)
    case 1 => c := OneByte(s[0]);
    case 2 => c := TwoBytes(s[0], s[1]);
    case 3 => c := ThreeBytes(s[0], s[1], s[2]);
    case _ => c := FourBytes(s[0], s[1], s[2], s[3]);
  }

  function EncodedAll(cs: seq<bv32>): Text
    requires Scalars(cs)
  {
    if cs == [] then [] else Encoded(cs[0]) + EncodedAll(cs[1..])
  }

  predicate Scalars(cs: seq<bv32>) {
    forall c :: c in cs ==> Scalar(c)
  }

  lemma {:induction false} EncodedIsValid(cs: seq<bv32>)
    requires Scalars(cs)
    ensures Valid(EncodedAll(cs))
  {
    hide RuneLength, Encoded, Scalar;
    if cs == [] {
    } else {
      assert cs[0] in cs;
      var first, rest := Encoded(cs[0]), EncodedAll(cs[1..]);
      RuneOfEncoded(cs[0], rest);
      EncodedIsValid(cs[1..]);
      assert (first + rest)[|first|..] == rest;
    }
  }

  lemma {:induction false} ValidIsEncoded(s: Text) returns (cs: seq<bv32>)
    requires Valid(s)
    ensures Scalars(cs) && EncodedAll(cs) == s
    decreases |s|
  {
    hide RuneLength, Encoded, Scalar;
    if s == [] {
      cs := [];
    } else {
      var n := RuneLength(s);
      var c := EncodedOfRune(s);
      var later := ValidIsEncoded(s[n..]);
      cs := [c] + later;
      assert cs[1..] == later && s == s[..n] + s[n..];
    }
  }

  /** Valid text is the encoding of some sequence of Unicode scalar values, and nothing else is. */
  lemma ValidIff(s: Text)
    ensures Valid(s) <==> exists cs: seq<bv32> :: Scalars(cs) && EncodedAll(cs) == s
  {
    hide Valid, EncodedAll, Scalars;
    if Valid(s) {
      var cs := ValidIsEncoded(s);
    }
    if cs: seq<bv32> :| Scalars(cs) && EncodedAll(cs) == s {
      EncodedIsValid(cs);
    }
  }
}
