/** Byte strings and the byte-level helpers of the capture engine. */
module Bytes {

  newtype byte = b: int | 0 <= b < 256

  type bytes = seq<byte>

  datatype Option<+T> = None | Some(value: T)

  const LF: byte := 10
  const CR: byte := 13
  const SP: byte := 32
  const COLON: byte := 58
  const SLASH: byte := 47

  const CRLF: bytes := [CR, LF]
  const CRLF_CRLF: bytes := [CR, LF, CR, LF]
  const LF_LF: bytes := [LF, LF]

  function Min(a: nat, b: nat): nat {
    if a <= b then a else b
  }

  /** The bytes of an ASCII literal. */
  function Ascii(s: string): (b: bytes)
    requires forall c :: c in s ==> c < 128 as char
    ensures |b| == |s|
    ensures forall k :: 0 <= k < |s| ==> b[k] as int == s[k] as int
  {
    seq(|s|, i requires 0 <= i < |s| => assert s[i] in s; s[i] as int as byte)
  }

  lemma Regroup<T>(a: seq<T>, b: seq<T>, c: seq<T>)
    ensures a + b + c == a + (b + c)
  {
  }

  /** `pat` occurs in `data` at offset `i`. */
  predicate At(data: bytes, pat: bytes, i: int) {
    0 <= i <= |data| - |pat| && data[i..i + |pat|] == pat
  }

  /** The least offset from `from` on at which `pat` occurs, or -1. */
  function IndexFrom(data: bytes, pat: bytes, from: nat): (r: int)
    ensures r == -1 || from <= r <= |data| - |pat|
    decreases |data| - from
  {
    if from + |pat| > |data| then -1
    else if At(data, pat, from) then from
    else IndexFrom(data, pat, from + 1)
  }

  /** IndexFrom finds an occurrence, and there is none before it. */
  lemma {:induction false} IndexFromIsLeast(data: bytes, pat: bytes, from: nat)
    ensures var r := IndexFrom(data, pat, from);
      && (r >= 0 ==> At(data, pat, r))
      && forall i :: from <= i && (r < 0 || i < r) ==> !At(data, pat, i)
    decreases |data| - from
  {
    if from + |pat| <= |data| && !At(data, pat, from) {
      IndexFromIsLeast(data, pat, from + 1);
    }
  }

  /** An occurrence survives appending. */
  lemma AtAppend(data: bytes, more: bytes, pat: bytes, i: int)
    requires 0 <= i <= |data| - |pat|
    ensures At(data + more, pat, i) <==> At(data, pat, i)
  {
    assert (data + more)[i..i + |pat|] == data[i..i + |pat|];
  }

  /** The first occurrence is determined by the bytes up to its end. */
  lemma IndexFromAppend(data: bytes, more: bytes, pat: bytes, from: nat)
    requires IndexFrom(data, pat, from) >= 0
    ensures IndexFrom(data + more, pat, from) == IndexFrom(data, pat, from)
  {
    var r := IndexFrom(data, pat, from);
    IndexFromIsLeast(data, pat, from);
    IndexFromIsLeast(data + more, pat, from);
    AtAppend(data, more, pat, r);
    var q := IndexFrom(data + more, pat, from);
    if q < r {
      AtAppend(data, more, pat, q);
    }
  }

  /** An occurrence that ends within the first part is found there. */
  lemma IndexFromTrim(data: bytes, more: bytes, pat: bytes, from: nat)
    requires 0 <= IndexFrom(data + more, pat, from) <= |data| - |pat|
    ensures IndexFrom(data, pat, from) == IndexFrom(data + more, pat, from)
  {
    var r := IndexFrom(data + more, pat, from);
    IndexFromIsLeast(data + more, pat, from);
    AtAppend(data, more, pat, r);
    forall k | from <= k < r
      ensures !At(data, pat, k)
    {
      AtAppend(data, more, pat, k);
    }
    IndexFromUnique(data, pat, from, r);
  }

  /** An offset where `pat` occurs, with no earlier occurrence, is what IndexFrom finds. */
  lemma IndexFromUnique(data: bytes, pat: bytes, from: nat, i: nat)
    requires from <= i && At(data, pat, i)
    requires forall k :: from <= k < i ==> !At(data, pat, k)
    ensures IndexFrom(data, pat, from) == i
  {
    IndexFromIsLeast(data, pat, from);
  }

  /** The first place of a single byte. */
  lemma FirstByte(s: bytes, b: byte, i: nat)
    requires i < |s| && s[i] == b && forall k :: 0 <= k < i ==> s[k] != b
    ensures IndexFrom(s, [b], 0) == i
  {
    assert s[i..i + 1] == [b];
    forall k | 0 <= k < i
      ensures !At(s, [b], k)
    {
      assert s[k..k + 1][0] == s[k];
    }
    IndexFromUnique(s, [b], 0, i);
  }

  lemma NoByte(s: bytes, b: byte)
    requires b !in s
    ensures IndexFrom(s, [b], 0) == -1
  {
    forall i | 0 <= i < |s|
      ensures !At(s, [b], i)
    {
      assert s[i..i + 1][0] == s[i] && s[i] in s;
    }
    IndexFromIsLeast(s, [b], 0);
  }

  predicate Contains(data: bytes, pat: bytes) {
    IndexFrom(data, pat, 0) >= 0
  }

  predicate HasPrefix(data: bytes, pat: bytes) {
    |pat| <= |data| && data[..|pat|] == pat
  }

  predicate IsSpace(b: byte) {
    9 <= b <= 13 || b == SP
  }

  function TrimLeft(s: bytes): bytes {
    if s != [] && IsSpace(s[0]) then TrimLeft(s[1..]) else s
  }

  function TrimRight(s: bytes): bytes {
    if s != [] && IsSpace(s[|s| - 1]) then TrimRight(s[..|s| - 1]) else s
  }

  /** strings.TrimSpace on ASCII. */
  function TrimSpace(s: bytes): bytes {
    TrimRight(TrimLeft(s))
  }

  /** The engine's own trim: spaces only. */
  function TrimBlanks(s: bytes): bytes {
    if s != [] && s[0] == SP then TrimBlanks(s[1..])
    else if s != [] && s[|s| - 1] == SP then TrimBlanks(s[..|s| - 1])
    else s
  }

  function TrimCr(s: bytes): bytes {
    if s != [] && s[|s| - 1] == CR then s[..|s| - 1] else s
  }

  function LowerChar(c: char): char {
    if 'A' <= c <= 'Z' then c + 32 as char else c
  }

  function LowerByte(b: byte): byte {
    LowerChar(b as char) as byte
  }

  /** strings.ToLower on ASCII. */
  function ToLower(s: bytes): bytes {
    seq(|s|, i requires 0 <= i < |s| => LowerByte(s[i]))
  }

  predicate IsDigit(b: byte) {
    48 <= b <= 57
  }

  predicate IsHexDigit(b: byte) {
    IsDigit(b) || 97 <= b <= 102 || 65 <= b <= 70
  }

  function HexDigitValue(b: byte): nat
    requires IsHexDigit(b)
  {
    if b <= 57 then b as int - 48 else if b <= 70 then b as int - 55 else b as int - 87
  }

  /** The number of leading bytes of `s` that are hexadecimal digits. */
  function HexRun(s: bytes): (n: nat)
    ensures n <= |s|
    ensures forall k :: 0 <= k < n ==> IsHexDigit(s[k])
    ensures n < |s| ==> !IsHexDigit(s[n])
  {
    if s == [] || !IsHexDigit(s[0]) then 0 else 1 + HexRun(s[1..])
  }

  predicate AllHex(s: bytes) {
    forall k :: 0 <= k < |s| ==> IsHexDigit(s[k])
  }

  function HexValue(s: bytes): nat
    requires AllHex(s)
  {
    if s == [] then 0 else 16 * HexValue(s[..|s| - 1]) + HexDigitValue(s[|s| - 1])
  }

  /** fmt.Sscanf(s, "%x", &uint64): the leading digits, whatever follows them. */
  function ScanHex(s: bytes): Option<nat> {
    var n := HexRun(s);
    if n == 0 then None
    else
      var v := HexValue(s[..n]);
      if v >= 0x1_0000_0000_0000_0000 then None else Some(v)
  }

  function DigitRun(s: bytes): (n: nat)
    ensures n <= |s|
    ensures forall k :: 0 <= k < n ==> IsDigit(s[k])
  {
    if s == [] || !IsDigit(s[0]) then 0 else 1 + DigitRun(s[1..])
  }

  function DecimalValue(s: bytes): nat
    requires forall k :: 0 <= k < |s| ==> IsDigit(s[k])
  {
    if s == [] then 0
    else
      assert IsDigit(s[|s| - 1]);
      10 * DecimalValue(s[..|s| - 1]) + (s[|s| - 1] as int - 48)
  }

  /** fmt.Sscanf(s, "%d", &int) with a 64-bit int: blanks, a sign, digits. */
  function ScanInt(s: bytes): Option<int> {
    var t := TrimLeft(s);
    var signed := t != [] && (t[0] == 43 || t[0] == 45);
    var d := if signed then t[1..] else t;
    var n := DigitRun(d);
    if n == 0 then None
    else
      var v: int := DecimalValue(d[..n]);
      if signed && t[0] == 45 then
        if v > 0x8000_0000_0000_0000 then None else Some(-v)
      else
        if v >= 0x8000_0000_0000_0000 then None else Some(v)
  }

  /** Cuts at every separator byte, like strings.Split with a one-byte separator. */
  function Split(s: bytes, sep: byte): (parts: seq<bytes>)
    ensures |parts| >= 1
  {
    var i := IndexFrom(s, [sep], 0);
    if i < 0 then [s] else [s[..i]] + Split(s[i + 1..], sep)
  }

  // ---- Cutting and lower-casing ----

  lemma SplitStep(s: bytes, sep: byte)
    ensures var i := IndexFrom(s, [sep], 0);
      Split(s, sep) == if i < 0 then [s] else [s[..i]] + Split(s[i + 1..], sep)
  {
    hide IndexFrom;
  }

  /** Lower-casing moves the twenty-six capital letters up by 32 and changes nothing else. */
  lemma LowerIs(s: bytes, i: nat)
    requires i < |s|
    ensures |ToLower(s)| == |s|
    ensures ToLower(s)[i] as int == if 65 <= s[i] as int <= 90 then s[i] as int + 32 else s[i] as int
  {
  }
}
