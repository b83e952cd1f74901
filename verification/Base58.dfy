/** Base58 as the Gateway implements it four times over: a big integer in base 58, with leading zero
    bytes carried as leading '1's. Strings are the bytes of a Go string, one char each. */
module Base58 {
  import opened Basics
  import opened Digits

  const DIGITS: string := "123456789"
  const A_TO_H: string := "ABCDEFGH"
  const J_TO_N: string := "JKLMN"
  const P_TO_Z: string := "PQRSTUVWXYZ"
  const LOWER_A_TO_K: string := "abcdefghijk"
  const LOWER_M_TO_Z: string := "mnopqrstuvwxyz"
  const ALPHABET: string := DIGITS + A_TO_H + J_TO_N + P_TO_Z + LOWER_A_TO_K + LOWER_M_TO_Z

  // ----- the alphabet -----

  /** The position of c in the alphabet, or -1. */
  function IndexOf(c: char): (d: int)
    ensures -1 <= d < |ALPHABET|
    ensures d >= 0 ==> ALPHABET[d] == c
  {
    IndexFrom(c, 0)
  }

  function IndexFrom(c: char, i: nat): (d: int)
    requires i <= |ALPHABET|
    ensures -1 <= d < |ALPHABET|
    ensures d >= 0 ==> d >= i && ALPHABET[d] == c
    ensures d < 0 ==> c !in ALPHABET[i..]
    decreases |ALPHABET| - i
  {
    if i == |ALPHABET| then -1 else if ALPHABET[i] == c then i else IndexFrom(c, i + 1)
  }

  /** The character code at each position: six runs of consecutive letters, in ascending order. */
  function Code(d: nat): nat {
    if d < 9 then '1' as nat + d
    else if d < 17 then 'A' as nat + d - 9
    else if d < 22 then 'J' as nat + d - 17
    else if d < 33 then 'P' as nat + d - 22
    else if d < 44 then 'a' as nat + d - 33
    else 'm' as nat + d - 44
  }

  lemma LetterAt(d: nat)
    requires d < |ALPHABET|
    ensures |ALPHABET| == 58 && ALPHABET[d] as nat == Code(d)
  {
    assert forall i :: 0 <= i < |DIGITS| ==> DIGITS[i] as nat == '1' as nat + i;
    assert forall i :: 0 <= i < |A_TO_H| ==> A_TO_H[i] as nat == 'A' as nat + i;
    assert forall i :: 0 <= i < |J_TO_N| ==> J_TO_N[i] as nat == 'J' as nat + i;
    assert forall i :: 0 <= i < |P_TO_Z| ==> P_TO_Z[i] as nat == 'P' as nat + i;
    assert forall i :: 0 <= i < |LOWER_A_TO_K| ==> LOWER_A_TO_K[i] as nat == 'a' as nat + i;
    assert forall i :: 0 <= i < |LOWER_M_TO_Z| ==> LOWER_M_TO_Z[i] as nat == 'm' as nat + i;
  }

  lemma IndexOfLetter(d: nat)
    requires d < |ALPHABET|
    ensures |ALPHABET| == 58 && IndexOf(ALPHABET[d]) == d
  {
    var e := IndexOf(ALPHABET[d]);
    assert ALPHABET[d] in ALPHABET[0..];
    LetterAt(d);
    LetterAt(e);
  }

  // ----- the encoding as a change of base -----

  predicate OverAlphabet(s: string) {
    forall i :: 0 <= i < |s| ==> IndexOf(s[i]) >= 0
  }

  function DigitsOf(s: string): (ds: seq<nat>)
    requires OverAlphabet(s)
    ensures |ds| == |s| && AllBelow(58, ds)
    ensures forall i :: 0 <= i < |s| ==> ds[i] == IndexOf(s[i])
  {
    LetterAt(0);
    seq(|s|, i requires 0 <= i < |s| => IndexOf(s[i]))
  }

  function CharsOf(ds: seq<nat>): (s: string)
    requires AllBelow(58, ds)
    ensures |s| == |ds|
  {
    LetterAt(0);
    seq(|ds|, i requires 0 <= i < |ds| => ALPHABET[ds[i]])
  }

  function Rebase(from: nat, to: nat, ds: seq<nat>): (es: seq<nat>)
    requires to >= 2
    ensures AllBelow(to, es)
  {
    Zeros(LeadingZeros(ds)) + Of(to, Value(from, ds))
  }

  function Encode(payload: seq<Byte>): string {
    CharsOf(Rebase(256, 58, payload))
  }

  function Decode(s: string): Option<seq<Byte>> {
    if OverAlphabet(s) then Some(Bytes(Rebase(58, 256, DigitsOf(s)))) else None
  }

  function Bytes(ds: seq<nat>): (bs: seq<Byte>)
    requires AllBelow(256, ds)
    ensures bs == ds
  {
    seq(|ds|, i requires 0 <= i < |ds| => ds[i])
  }

  /** What decoding means: the characters, in the order of the alphabet, are the digits of the number whose
      bytes come out, and there are as many zero bytes in front as there are '1's. */
  lemma DecodeMeans(s: string, raw: seq<Byte>)
    requires Decode(s) == Some(raw)
    ensures exists ds: seq<nat> ::
              && |ds| == |s| && (forall i :: 0 <= i < |s| ==> ds[i] < 58 && s[i] as nat == Code(ds[i]))
              && Value(256, raw) == Value(58, ds) && LeadingZeros(raw) == LeadingZeros(ds)
  {
    var ds := DigitsOf(s);
    var z, n := LeadingZeros(ds), Value(58, ds);
    ValueAfterZeros(256, z, Of(256, n));
    ValueOf(256, n);
    LeadingZerosUnique(raw, z);
    forall i | 0 <= i < |s|
      ensures ds[i] < 58 && s[i] as nat == Code(ds[i])
    {
      LetterAt(ds[i]);
    }
  }

  // ----- it is a bijection -----

  lemma LeadingZerosUnique(ds: seq<nat>, z: nat)
    requires z <= |ds| && (forall i :: 0 <= i < z ==> ds[i] == 0) && (z < |ds| ==> ds[z] != 0)
    ensures LeadingZeros(ds) == z
  {
  }

  lemma RebaseInverts(from: nat, to: nat, ds: seq<nat>)
    requires from >= 2 && to >= 2 && AllBelow(from, ds)
    ensures Rebase(to, from, Rebase(from, to, ds)) == ds
  {
    var z := LeadingZeros(ds);
    var core, n := ds[z..], Value(from, ds);
    assert Zeros(z) + core == ds;
    ValueAfterZeros(from, z, core);
    ValueAfterZeros(to, z, Of(to, n));
    ValueOf(to, n);
    LeadingZerosUnique(Rebase(from, to, ds), z);
    OfValue(from, core);
  }

  lemma CharsOfDigits(s: string)
    requires OverAlphabet(s)
    ensures CharsOf(DigitsOf(s)) == s
  {
  }

  lemma DigitsOfChars(ds: seq<nat>)
    requires AllBelow(58, ds)
    ensures OverAlphabet(CharsOf(ds)) && DigitsOf(CharsOf(ds)) == ds
  {
    forall i | 0 <= i < |ds|
      ensures IndexOf(CharsOf(ds)[i]) == ds[i]
    {
      LetterAt(0);
      IndexOfLetter(ds[i]);
    }
  }

  lemma DecodeInvertsEncode(payload: seq<Byte>)
    ensures Decode(Encode(payload)) == Some(payload)
  {
    DigitsOfChars(Rebase(256, 58, payload));
    RebaseInverts(256, 58, payload);
  }

  /** Every string over the alphabet is the encoding of exactly what it decodes to, so no payload has
      two spellings. */
  lemma EncodeInvertsDecode(s: string)
    ensures Decode(s).Some? <==> exists payload :: Encode(payload) == s
    ensures Decode(s).Some? ==> Encode(Decode(s).value) == s
  {
    if OverAlphabet(s) {
      RebaseInverts(58, 256, DigitsOf(s));
      CharsOfDigits(s);
      assert Encode(Decode(s).value) == s;
    }
    forall payload | Encode(payload) == s
      ensures Decode(s).Some?
    {
      DecodeInvertsEncode(payload);
    }
  }

  // ----- the loops of the source -----

  function Reverse(s: string): (r: string)
    ensures |r| == |s|
    ensures forall i :: 0 <= i < |s| ==> r[i] == s[|s| - 1 - i]
  {
    if s == [] then [] else Reverse(s[1..]) + [s[0]]
  }

  /** n = n * 58 + digit over the whole string, failing at the first foreign character. */
  lemma DigitsOneMore(s: string, c: char)
    requires OverAlphabet(s) && IndexOf(c) >= 0
    ensures OverAlphabet(s + [c]) && DigitsOf(s + [c]) == DigitsOf(s) + [IndexOf(c)]
  {
  }

  method Accumulate(s: string) returns (n: nat, ok: bool)
    ensures ok <==> OverAlphabet(s)
    ensures ok ==> n == Value(58, DigitsOf(s))
  {
    n, ok := 0, false;
    for i := 0 to |s|
      invariant OverAlphabet(s[..i]) && n == Value(58, DigitsOf(s[..i]))
    {
      var d := IndexOf(s[i]);
      if d < 0 {
        return;
      }
      DigitsOneMore(s[..i], s[i]);
      ValueOneMore(58, DigitsOf(s[..i]), d);
      assert s[..i + 1] == s[..i] + [s[i]];
      n := n * 58 + d;
    }
    assert s[..|s|] == s;
    ok := true;
  }

  method CountOnes(s: string) returns (zeros: nat)
    requires OverAlphabet(s)
    ensures zeros == LeadingZeros(DigitsOf(s))
  {
    zeros := 0;
    IndexOfLetter(0);
    LetterAt(0);
    while zeros < |s| && s[zeros] == '1'
      invariant zeros <= |s| && forall i :: 0 <= i < zeros ==> s[i] == '1'
    {
      zeros := zeros + 1;
    }
    LeadingZerosUnique(DigitsOf(s), zeros);
  }

  method Base58Decode(s: string) returns (raw: seq<Byte>, ok: bool)
    ensures Decode(s) == if ok then Some(raw) else None
  {
    raw := [];
    var n;
    n, ok := Accumulate(s);
    if !ok {
      return;
    }
    var b := Bytes(Of(256, n));
    var zeros := CountOnes(s);
    raw := Bytes(Zeros(zeros)) + b;
  }

  /** The length the balance code computes without ever building the bytes. */
  method SolanaBase58DecodedLength(s: string) returns (length: nat, ok: bool)
    ensures ok <==> Decode(s).Some?
    ensures length == if ok then |Decode(s).value| else 0
  {
    var n;
    n, ok := Accumulate(s);
    if !ok {
      return 0, false;
    }
    var leadingZeroes := CountOnes(s);
    length := leadingZeroes + |Of(256, n)|;
  }

  lemma ReverseAppend(s: string, c: char)
    ensures Reverse(s + [c]) == [c] + Reverse(s)
  {
  }

  lemma CharsOfConcat(ds: seq<nat>, es: seq<nat>)
    requires AllBelow(58, ds) && AllBelow(58, es)
    ensures CharsOf(ds + es) == CharsOf(ds) + CharsOf(es)
  {
  }

  /** Repeated division: the digits come out least significant first. */
  method DivideDown(total: nat) returns (encoded: string)
    ensures Reverse(encoded) == CharsOf(Of(58, total))
  {
    var n := total;
    encoded := [];
    LetterAt(0);
    while n > 0
      invariant CharsOf(Of(58, total)) == CharsOf(Of(58, n)) + Reverse(encoded)
    {
      CharsOfConcat(Of(58, n / 58), [n % 58]);
      ReverseAppend(encoded, ALPHABET[n % 58]);
      encoded := encoded + [ALPHABET[n % 58]];
      n := n / 58;
    }
  }

  method ReverseInPlace(written: string) returns (encoded: string)
    ensures encoded == Reverse(written)
  {
    encoded := written;
    var left, right := 0, |encoded| - 1;
    while left < right
      invariant 0 <= left <= |written| && right == |written| - 1 - left && |encoded| == |written|
      invariant left <= right + 2
      invariant forall k :: 0 <= k < left || right < k < |written| ==> encoded[k] == written[|written| - 1 - k]
      invariant forall k :: left <= k <= right ==> encoded[k] == written[k]
    {
      encoded := encoded[left := encoded[right]][right := encoded[left]];
      left, right := left + 1, right - 1;
    }
    assert encoded == Reverse(written);
  }

  /** One '1' at the end for every leading zero byte. */
  method AppendOnes(payload: seq<Byte>, digits: string) returns (written: string)
    ensures Reverse(written) == CharsOf(Zeros(LeadingZeros(payload))) + Reverse(digits)
  {
    written := digits;
    LetterAt(0);
    var i := 0;
    while i < |payload| && payload[i] == 0
      invariant i <= |payload| && forall j :: 0 <= j < i ==> payload[j] == 0
      invariant Reverse(written) == CharsOf(Zeros(i)) + Reverse(digits)
    {
      ReverseAppend(written, '1');
      OneMoreZero(i);
      written := written + ['1'];
      i := i + 1;
    }
    LeadingZerosUnique(payload, i);
  }

  lemma OneMoreZero(i: nat)
    ensures CharsOf(Zeros(i + 1)) == ['1'] + CharsOf(Zeros(i))
  {
    LetterAt(0);
    assert Zeros(i + 1) == [0] + Zeros(i);
    CharsOfConcat([0], Zeros(i));
  }

  method Base58Encode(payload: seq<Byte>) returns (encoded: string)
    ensures encoded == Encode(payload)
  {
    encoded := DivideDown(Value(256, payload));
    encoded := AppendOnes(payload, encoded);
    CharsOfConcat(Zeros(LeadingZeros(payload)), Of(58, Value(256, payload)));
    encoded := ReverseInPlace(encoded);
  }
}
