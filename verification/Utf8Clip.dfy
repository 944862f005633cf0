/** Byte-budget clipping of UTF-8 text (clipBytes and clipRunes of cmd/nilcore/build.go).
    Well-formedness is section 4 of RFC 3629. */
module Utf8Clip {

  type Byte = b: int | 0 <= b < 256

  predicate RuneStart(b: Byte) {
    b < 0x80 || 0xC0 <= b
  }

  predicate InRange(s: seq<Byte>, i: nat, lo: Byte, hi: Byte) {
    i < |s| && lo <= s[i] <= hi
  }

  predicate Tail(s: seq<Byte>, i: nat) {
    InRange(s, i, 0x80, 0xBF)
  }

  /** Length of the well-formed sequence that `s` starts with; 0 when it starts with none. */
  function RuneLen(s: seq<Byte>): (n: nat)
    ensures n <= 4 && n <= |s|
  {
    if |s| == 0 then 0
    else if s[0] < 0x80 then 1
    else if 0xC2 <= s[0] <= 0xDF then (if Tail(s, 1) then 2 else 0)
    else if 0xE0 <= s[0] <= 0xEF then
      var second := if s[0] == 0xE0 then InRange(s, 1, 0xA0, 0xBF)
                    else if s[0] == 0xED then InRange(s, 1, 0x80, 0x9F)
                    else Tail(s, 1);
      if second && Tail(s, 2) then 3 else 0
    else if 0xF0 <= s[0] <= 0xF4 then
      var second := if s[0] == 0xF0 then InRange(s, 1, 0x90, 0xBF)
                    else if s[0] == 0xF4 then InRange(s, 1, 0x80, 0x8F)
                    else Tail(s, 1);
      if second && Tail(s, 2) && Tail(s, 3) then 4 else 0
    else 0
  }

  predicate Valid(s: seq<Byte>)
    decreases |s|
  {
    s == [] || (RuneLen(s) > 0 && Valid(s[RuneLen(s)..]))
  }

  // --- Well-formed is encoded ---

  /** A Unicode scalar value: a code point that is no surrogate. */
  predicate Scalar(cp: int) {
    0 <= cp < 0xD800 || 0xE000 <= cp < 0x110000
  }

  function Encode(cp: int): (r: seq<Byte>)
    requires Scalar(cp)
    ensures r != []
  {
    var high := cp / 64;
    var top := high / 64;
    var last := 0x80 + cp % 64;
    if cp < 0x80 then [cp]
    else if cp < 0x800 then [0xC0 + high, last]
    else if cp < 0x10000 then [0xE0 + top, 0x80 + high % 64, last]
    else [0xF0 + top / 64, 0x80 + top % 64, 0x80 + high % 64, last]
  }

  lemma {:induction false} EncodedIsOneRune(cp: int, rest: seq<Byte>)
    requires Scalar(cp)
    ensures RuneLen(Encode(cp) + rest) == |Encode(cp)|
  {
    var e := Encode(cp);
    var s := e + rest;
    assert forall i :: 0 <= i < |e| ==> s[i] == e[i];
  }

  lemma SixBits(x: nat, y: nat)
    requires y < 64
    ensures (x * 64 + y) / 64 == x && (x * 64 + y) % 64 == y
  {
  }

  lemma {:induction false} TwoBytes(s: seq<Byte>) returns (cp: int)
    requires RuneLen(s) == 2
    ensures Scalar(cp) && Encode(cp) == s[..2]
  {
    cp := (s[0] as int - 0xC0) * 64 + (s[1] as int - 0x80);
    SixBits(s[0] as int - 0xC0, s[1] as int - 0x80);
  }

  lemma {:induction false} ThreeBytes(s: seq<Byte>) returns (cp: int)
    requires RuneLen(s) == 3
    ensures Scalar(cp) && Encode(cp) == s[..3]
  {
    var high: int := (s[0] as int - 0xE0) * 64 + (s[1] as int - 0x80);
    cp := high * 64 + (s[2] as int - 0x80);
    SixBits(s[0] as int - 0xE0, s[1] as int - 0x80);
    SixBits(high, s[2] as int - 0x80);
  }

  lemma {:induction false} FourBytes(s: seq<Byte>) returns (cp: int)
    requires RuneLen(s) == 4
    ensures Scalar(cp) && Encode(cp) == s[..4]
  {
    var top: int := (s[0] as int - 0xF0) * 64 + (s[1] as int - 0x80);
    var high: int := top * 64 + (s[2] as int - 0x80);
    cp := high * 64 + (s[3] as int - 0x80);
    SixBits(s[0] as int - 0xF0, s[1] as int - 0x80);
    SixBits(top, s[2] as int - 0x80);
    SixBits(high, s[3] as int - 0x80);
  }

  lemma {:induction false} RuneIsEncoded(s: seq<Byte>) returns (cp: int)
    requires RuneLen(s) > 0
    ensures Scalar(cp) && Encode(cp) == s[..RuneLen(s)]
  {
    var n := RuneLen(s);
    if n == 1 {
      cp := s[0];
    } else if n == 2 {
      cp := TwoBytes(s);
    } else if n == 3 {
      cp := ThreeBytes(s);
    } else {
      cp := FourBytes(s);
    }
  }

  predicate Scalars(cps: seq<int>) {
    forall cp :: cp in cps ==> Scalar(cp)
  }

  function EncodeAll(cps: seq<int>): (r: seq<Byte>)
    requires Scalars(cps)
  {
    if cps == [] then [] else Encode(cps[0]) + EncodeAll(cps[1..])
  }

  /** A byte string is valid exactly when it encodes a text. */
  lemma {:induction false} ValidIsEncodedExactly(s: seq<Byte>) returns (cps: seq<int>)
    ensures Valid(s) ==> Scalars(cps) && EncodeAll(cps) == s
    ensures !Valid(s) ==> forall text :: Scalars(text) ==> EncodeAll(text) != s
  {
    cps := [];
    if Valid(s) {
      cps := ValidIsEncoded(s);
    } else {
      forall text | Scalars(text) ensures EncodeAll(text) != s {
        EncodedIsValid(text);
      }
    }
  }

  lemma {:induction false} ValidIsEncoded(s: seq<Byte>) returns (cps: seq<int>)
    requires Valid(s)
    ensures Scalars(cps) && EncodeAll(cps) == s
    decreases |s|
  {
    cps := [];
    if s != [] {
      var cp := RuneIsEncoded(s);
      var rest := ValidIsEncoded(s[RuneLen(s)..]);
      cps := [cp] + rest;
      assert cps[1..] == rest;
    }
  }

  lemma {:induction false} EncodedIsValid(cps: seq<int>)
    requires Scalars(cps)
    ensures Valid(EncodeAll(cps))
    decreases |cps|
  {
    if cps != [] {
      assert cps[0] in cps;
      var rest := EncodeAll(cps[1..]);
      EncodedIsOneRune(cps[0], rest);
      EncodedIsValid(cps[1..]);
      assert (Encode(cps[0]) + rest)[|Encode(cps[0])|..] == rest;
    }
  }

  /** The cut both loops stop at: the nearest rune start at or below `n`, or 0. */
  function Boundary(s: seq<Byte>, n: nat): (k: nat)
    requires n < |s|
    ensures k <= n
  {
    if n > 0 && !RuneStart(s[n]) then Boundary(s, n - 1) else n
  }

  function Clip(s: seq<Byte>, n: nat): (r: seq<Byte>)
    ensures r <= s && |r| <= n
  {
    if |s| <= n then s else s[..Boundary(s, n)]
  }

  /** Truncating a text inside its first rune leaves nothing well-formed; truncating it after
      that rune does not change how the rune reads. */
  lemma RuneLenOfPrefix(s: seq<Byte>, m: nat)
    requires RuneLen(s) > 0 && m <= |s|
    ensures RuneLen(s[..m]) == if m < RuneLen(s) then 0 else RuneLen(s)
  {
  }

  lemma {:induction false} BoundaryInFirstRune(s: seq<Byte>, n: nat)
    requires n < RuneLen(s)
    ensures Boundary(s, n) == 0
  {
    if n > 0 {
      BoundaryInFirstRune(s, n - 1);
    }
  }

  lemma {:induction false} BoundaryAfterFirstRune(s: seq<Byte>, n: nat)
    requires Valid(s) && s != [] && RuneLen(s) <= n < |s|
    ensures Boundary(s, n) == RuneLen(s) + Boundary(s[RuneLen(s)..], n - RuneLen(s))
  {
    if n > RuneLen(s) {
      BoundaryAfterFirstRune(s, n - 1);
    }
  }

  /** Clipping valid UTF-8 gives its longest valid prefix of at most `n` bytes, and gives up
      at most three bytes of the budget. */
  lemma {:induction false} ClipIsLongestValidPrefix(s: seq<Byte>, n: nat)
    requires Valid(s)
    ensures Valid(Clip(s, n))
    ensures forall m :: |Clip(s, n)| < m <= n && m <= |s| ==> !Valid(s[..m])
    ensures |s| > n ==> n - |Clip(s, n)| <= 3
    decreases |s|
  {
    if |s| > n {
      var first := RuneLen(s);
      if n < first {
        BoundaryInFirstRune(s, n);
        forall m | 0 < m <= n ensures !Valid(s[..m]) {
          RuneLenOfPrefix(s, m);
        }
      } else {
        var rest := s[first..];
        BoundaryAfterFirstRune(s, n);
        ClipIsLongestValidPrefix(rest, n - first);
        forall m | first <= m <= n ensures Valid(s[..m]) == Valid(rest[..m - first]) {
          RuneLenOfPrefix(s, m);
          assert s[..m][first..] == rest[..m - first];
        }
        forall m | Boundary(s, n) < m <= n ensures !Valid(s[..m]) {
          assert first <= m && !Valid(rest[..m - first]);
        }
      }
    }
  }

  /** Exactly the prefixes that end on a rune start survive: the loops' test is the right one. */
  lemma {:induction false} ValidPrefixIffRuneStart(s: seq<Byte>, k: nat)
    requires Valid(s) && k < |s|
    ensures Valid(s[..k]) <==> RuneStart(s[k])
    decreases |s|
  {
    var first := RuneLen(s);
    RuneLenOfPrefix(s, k);
    if k >= first {
      ValidPrefixIffRuneStart(s[first..], k - first);
      assert s[..k][first..] == s[first..][..k - first];
    }
  }

  method ClipBytes(s: seq<Byte>, limit: nat) returns (r: seq<Byte>)
    ensures r == Clip(s, limit)
  {
    if |s| <= limit {
      return s;
    }
    var n := limit;
    while n > 0 && !RuneStart(s[n])
      invariant 0 <= n <= limit
      invariant Boundary(s, limit) == Boundary(s, n)
    {
      n := n - 1;
    }
    return s[..n];
  }

  method ClipRunes(s: seq<Byte>, n: nat) returns (r: seq<Byte>)
    ensures r == Clip(s, n)
  {
    if |s| <= n {
      return s;
    }
    var cut := n;
    while cut > 0 && !RuneStart(s[cut])
      invariant 0 <= cut <= n
      invariant Boundary(s, n) == Boundary(s, cut)
    {
      cut := cut - 1;
    }
    return s[..cut];
  }
}
