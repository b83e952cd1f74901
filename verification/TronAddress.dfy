/** TRON addresses: 21 bytes led by 0x41, shown as Base58Check ("T..., 34 characters") or as 41-hex.
    SHA-256 is a parameter: nothing here depends on what it computes. */
module TronAddress {
  import opened Basics
  import opened Digits
  import opened Base58

  type Digest = bytes: seq<Byte> | |bytes| == 32 witness seq(32, _ => 0)
  type Hash = seq<Byte> -> Digest

  const PREFIX: nat := 0x41

  function Checksum(sha: Hash, payload: seq<Byte>): (sum: seq<Byte>)
    ensures |sum| == 4
  {
    sha(sha(payload))[..4]
  }

  /** The 21-byte payload of a Base58Check TRON address: decoded length, prefix and checksum, and
      nothing about how the string looks. */
  function Verified(sha: Hash, address: string): (payload: Option<seq<Byte>>)
    ensures payload.Some? ==> |payload.value| == 21 && payload.value[0] == PREFIX
  {
    match Decode(address)
    case None => None
    case Some(raw) =>
      if |raw| == 25 && raw[0] == PREFIX && raw[21..] == Checksum(sha, raw[..21]) then Some(raw[..21]) else None
  }

  // ----- why 25 bytes led by 0x41 are 34 characters led by 'T' -----

  lemma {:induction false} PowSum(base: nat, d: nat, e: nat)
    ensures Pow(base, d + e) == Pow(base, d) * Pow(base, e)
  {
    if d > 0 {
      PowSum(base, d - 1, e);
      MulAssociates(base, Pow(base, d - 1), Pow(base, e));
      assert Pow(base, d + e) == base * Pow(base, d - 1 + e);
    }
  }

  lemma PowerBounds()
    ensures 26 * Pow(58, 33) <= PREFIX * Pow(256, 24)
    ensures (PREFIX + 1) * Pow(256, 24) <= 27 * Pow(58, 33)
  {
    PowSum(58, 2, 2);
    PowSum(58, 4, 4);
    PowSum(58, 8, 8);
    PowSum(58, 16, 16);
    PowSum(58, 1, 32);
    PowSum(256, 3, 3);
    PowSum(256, 6, 6);
    PowSum(256, 12, 12);
  }

  lemma LeadingDigit(base: nat, d: nat, n: nat, lead: nat, e: nat, v: nat)
    requires 1 <= d < base && n >= 1 && 1 <= lead < base
    requires d * Pow(base, n - 1) <= v < (d + 1) * Pow(base, n - 1)
    requires lead * Pow(base, e) <= v < (lead + 1) * Pow(base, e)
    ensures n == e + 1 && d == lead
  {
    if n - 1 < e {
      LeadingDigitBelow(base, d, n - 1, lead, e, v);
    } else if n - 1 > e {
      LeadingDigitBelow(base, lead, e, d, n - 1, v);
    } else if d < lead {
      MulMonotone(d + 1, lead, Pow(base, e));
    } else if lead < d {
      MulMonotone(lead + 1, d, Pow(base, e));
    }
  }

  lemma LeadingDigitBelow(base: nat, d: nat, low: nat, lead: nat, high: nat, v: nat)
    requires 1 <= d < base && 1 <= lead && low < high
    requires v < (d + 1) * Pow(base, low)
    ensures v < lead * Pow(base, high)
  {
    MulMonotone(d + 1, base, Pow(base, low));
    assert Pow(base, low + 1) == base * Pow(base, low);
    PowMonotone(base, low + 1, high);
    MulMonotone(1, lead, Pow(base, high));
  }

  lemma TronShape(address: string)
    requires var raw := Decode(address); raw.Some? && |raw.value| == 25 && raw.value[0] == PREFIX
    ensures |address| == 34 && address[0] == 'T'
  {
    var raw, ds := Decode(address).value, DigitsOf(address);
    var v := Value(58, ds);
    assert LeadingZeros(ds) == 0;
    assert raw == Of(256, v);
    ValueOf(256, v);
    ValueBounds(256, raw);
    PowerBounds();
    ValueBounds(58, ds);
    LeadingDigit(58, ds[0], |ds|, 26, 33, v);
    LetterAt(26);
  }

  // ----- hexadecimal, as `encoding/hex` reads and writes it -----

  function Lower(c: char): char {
    if 'A' <= c <= 'Z' then ((c as int) + 32) as char else c
  }

  function ToLower(s: string): (r: string)
    ensures |r| == |s|
  {
    seq(|s|, i requires 0 <= i < |s| => Lower(s[i]))
  }

  function HexValue(c: char): int {
    if '0' <= c <= '9' then c as int - '0' as int
    else if 'a' <= c <= 'f' then c as int - 'a' as int + 10
    else if 'A' <= c <= 'F' then c as int - 'A' as int + 10
    else -1
  }

  /** The digits are 0 to 9 and a to f. */
  function HexLetter(d: nat): (c: char)
    requires d < 16
    ensures HexValue(c) == d && ('0' <= c <= '9' || 'a' <= c <= 'f')
  {
    if d < 10 then '0' + d as char else 'a' + (d - 10) as char
  }

  function HexEncode(bytes: seq<Byte>): (s: string)
    ensures |s| == 2 * |bytes|
  {
    if bytes == [] then ""
    else [HexLetter(bytes[0] / 16), HexLetter(bytes[0] % 16)] + HexEncode(bytes[1..])
  }

  function HexDecode(s: string): (bytes: Option<seq<Byte>>)
    ensures bytes.Some? ==> |s| == 2 * |bytes.value|
  {
    if s == "" then Some([])
    else if |s| == 1 || HexValue(s[0]) < 0 || HexValue(s[1]) < 0 then None
    else
      match HexDecode(s[2..])
      case None => None
      case Some(rest) => Some([HexValue(s[0]) * 16 + HexValue(s[1])] + rest)
  }

  predicate LowerHex(s: string) {
    forall i :: 0 <= i < |s| ==> '0' <= s[i] <= '9' || 'a' <= s[i] <= 'f'
  }

  lemma HexLetterOf(c: char)
    requires '0' <= c <= '9' || 'a' <= c <= 'f'
    ensures 0 <= HexValue(c) < 16 && HexLetter(HexValue(c)) == c
  {
  }

  lemma HexPair(c: char, d: char, text: string)
    requires HexValue(c) >= 0 && HexValue(d) >= 0 && HexDecode(text).Some?
    ensures HexDecode([c, d] + text) == Some([HexValue(c) * 16 + HexValue(d)] + HexDecode(text).value)
  {
  }

  lemma {:induction false} HexEncodeIsLower(bytes: seq<Byte>)
    ensures LowerHex(HexEncode(bytes))
  {
    if bytes != [] {
      HexEncodeIsLower(bytes[1..]);
    }
  }

  lemma {:induction false} HexDecodesBack(bytes: seq<Byte>)
    ensures HexDecode(HexEncode(bytes)) == Some(bytes)
  {
    if bytes != [] {
      var b, rest := bytes[0], bytes[1..];
      HexDecodesBack(rest);
      HexPair(HexLetter(b / 16), HexLetter(b % 16), HexEncode(rest));
      assert bytes == [b] + rest;
    }
  }

  lemma HexDecodeInvertsEncode(bytes: seq<Byte>)
    ensures LowerHex(HexEncode(bytes)) && HexDecode(HexEncode(bytes)) == Some(bytes)
  {
    HexEncodeIsLower(bytes);
    HexDecodesBack(bytes);
  }

  lemma {:induction false} HexEncodeInvertsDecode(s: string)
    requires LowerHex(s) && |s| % 2 == 0
    ensures HexDecode(s).Some? && HexEncode(HexDecode(s).value) == s
  {
    if s != "" {
      HexEncodeInvertsDecode(s[2..]);
      HexLetterOf(s[0]);
      HexLetterOf(s[1]);
      var rest := HexDecode(s[2..]).value;
      var bytes := HexDecode(s).value;
      assert bytes[0] / 16 == HexValue(s[0]) && bytes[0] % 16 == HexValue(s[1]) && bytes[1..] == rest;
      assert s == [s[0], s[1]] + s[2..];
    }
  }

  lemma LowerHexIsLower(s: string)
    requires LowerHex(s)
    ensures ToLower(s) == s
  {
  }

  // ----- normalization and display (validate.go) -----

  predicate HasPrefix(s: string, prefix: string) {
    prefix <= s
  }

  function TronAddrHex(sha: Hash, addr: string): string {
    if |addr| == 42 && HasPrefix(ToLower(addr), "41") && HexDecode(addr).Some? then ToLower(addr)
    else if HasPrefix(addr, "T") && ChecksumValid(sha, addr) then
      ToLower(HexEncode(Decode(addr).value[..21]))
    else ToLower(addr)
  }

  /** The normalizer checks length and checksum, but not the 0x41 prefix. */
  predicate ChecksumValid(sha: Hash, addr: string) {
    match Decode(addr)
    case None => false
    case Some(raw) => |raw| == 25 && raw[21..] == Checksum(sha, raw[..21])
  }

  predicate Space(c: char) {
    c == ' ' || '\t' <= c <= '\r'
  }

  function TrimLeft(s: string): string {
    if s != "" && Space(s[0]) then TrimLeft(s[1..]) else s
  }

  function TrimSpace(s: string): string {
    TrimRight(TrimLeft(s))
  }

  function TrimRight(s: string): string {
    if s != "" && Space(s[|s| - 1]) then TrimRight(s[..|s| - 1]) else s
  }

  function TronAddrDisplay(sha: Hash, addr: string): string {
    if HasPrefix(addr, "T") then addr
    else
      var normalized := ToLower(TrimSpace(addr));
      if |normalized| != 42 || !HasPrefix(normalized, "41") then addr
      else
        match HexDecode(normalized)
        case None => addr
        case Some(payload) =>
          if |payload| != 21 then addr else Encode(payload + Checksum(sha, payload))
  }

  /** The pattern ^41[0-9a-f]{40}$. */
  predicate CanonicalHex(s: string) {
    |s| == 42 && HasPrefix(s, "41") && LowerHex(s)
  }

  // ----- the three validators -----

  /** handlers/validate.go */
  predicate IsValidTronBase58Address(sha: Hash, address: string) {
    && |address| == 34 && HasPrefix(address, "T")
    && var normalized := TronAddrHex(sha, address);
       |normalized| == 42 && HasPrefix(normalized, "41") && CanonicalHex(normalized)
  }

  /** upstream/tron.go */
  method TronBase58AddressHex(sha: Hash, address: string) returns (hex: string, ok: bool)
    ensures ok <==> Verified(sha, address).Some?
    ensures ok ==> hex == HexEncode(Verified(sha, address).value)
  {
    hex, ok := "", false;
    if Verified(sha, address).Some? {
      TronShape(address);
    }
    if |address| != 34 || !HasPrefix(address, "T") {
      return;
    }
    var n, inAlphabet := Accumulate(address);
    if !inAlphabet {
      return;
    }
    var decoded := Bytes(Of(256, n));
    var leadingZeroes := CountOnes(address);
    var padding := Bytes(Zeros(leadingZeroes));
    if leadingZeroes > 0 { // never: the address begins with 'T'
      decoded := padding + decoded;
    }
    assert decoded == Decode(address).value;
    if |decoded| != 25 || decoded[0] != PREFIX {
      return;
    }
    if decoded[21..] != Checksum(sha, decoded[..21]) {
      return;
    }
    hex, ok := HexEncode(decoded[..21]), true;
  }

  predicate HexForm(value: string) {
    |value| == 42 && HasPrefix(ToLower(value), "41") && HexDecode(value).Some?
  }

  /** upstream/tron_history.go */
  method ValidTronAddress(sha: Hash, value: string) returns (valid: bool)
    ensures valid <==> HexForm(value) || Verified(sha, value).Some?
  {
    if Verified(sha, value).Some? {
      TronShape(value);
    }
    if |value| == 42 && HasPrefix(ToLower(value), "41") {
      var decoded := HexDecode(value);
      return decoded.Some? && |decoded.value| == 21;
    }
    var raw, ok := DecodeTronBase58(value);
    if !ok || |raw| != 25 || raw[0] != PREFIX {
      return false;
    }
    valid := raw[21..] == Checksum(sha, raw[..21]);
  }

  /** The history reader's own decoder: like the others, except that it refuses the empty string. */
  method DecodeTronBase58(value: string) returns (raw: seq<Byte>, ok: bool)
    ensures ok <==> value != "" && Decode(value).Some?
    ensures ok ==> Decode(value) == Some(raw)
  {
    raw, ok := [], false;
    if value == "" {
      return;
    }
    var n;
    n, ok := Accumulate(value);
    if !ok {
      return;
    }
    var decoded := Bytes(Of(256, n));
    var leading := CountOnes(value);
    raw := Bytes(Zeros(leading)) + decoded;
  }

  lemma HexOfPayload(payload: seq<Byte>)
    requires |payload| == 21
    ensures LowerHex(HexEncode(payload)) && ToLower(HexEncode(payload)) == HexEncode(payload)
    ensures payload[0] == PREFIX <==> HasPrefix(HexEncode(payload), "41")
  {
    HexDecodeInvertsEncode(payload);
    LowerHexIsLower(HexEncode(payload));
    var s := HexEncode(payload);
    if HasPrefix(s, "41") {
      assert s[0] == '4' && s[1] == '1';
    }
  }

  /** The request validator accepts what the other two accept outside the hex form, although it
      looks at the shape of the string and they look at the prefix of the bytes. */
  lemma ValidatorsAgree(sha: Hash, address: string)
    ensures IsValidTronBase58Address(sha, address) <==> Verified(sha, address).Some?
    ensures Verified(sha, address).Some? ==> !HexForm(address)
    ensures Verified(sha, address).Some? ==>
              TronAddrHex(sha, address) == HexEncode(Verified(sha, address).value)
  {
    if Verified(sha, address).Some? {
      TronShape(address);
      HexOfPayload(Decode(address).value[..21]);
    } else if |address| == 34 && HasPrefix(address, "T") && ChecksumValid(sha, address) {
      HexOfPayload(Decode(address).value[..21]);
    }
  }

  lemma DisplayVerifies(sha: Hash, payload: seq<Byte>)
    requires |payload| == 21 && payload[0] == PREFIX
    ensures Verified(sha, Encode(payload + Checksum(sha, payload))) == Some(payload)
  {
    var raw := payload + Checksum(sha, payload);
    DecodeInvertsEncode(raw);
    assert raw[..21] == payload && raw[21..] == Checksum(sha, payload);
  }

  lemma TrimKeeps(s: string)
    requires s != "" && !Space(s[0]) && !Space(s[|s| - 1])
    ensures TrimSpace(s) == s
  {
  }

  lemma {:induction false} TrimsInFront(before: string, s: string)
    requires s != "" && !Space(s[0]) && forall c :: c in before ==> Space(c)
    ensures TrimLeft(before + s) == s
  {
    if before == "" {
      assert before + s == s;
    } else {
      assert (before + s)[1..] == before[1..] + s;
      TrimsInFront(before[1..], s);
    }
  }

  lemma {:induction false} TrimsBehind(s: string, after: string)
    requires s != "" && !Space(s[|s| - 1]) && forall c :: c in after ==> Space(c)
    ensures TrimRight(s + after) == s
  {
    if after == "" {
      assert s + after == s;
    } else {
      var all, init := s + after, after[..|after| - 1];
      assert all[|all| - 1] == after[|after| - 1] && all[|all| - 1] in after;
      assert all[..|all| - 1] == s + init;
      TrimsBehind(s, init);
    }
  }

  /** White space around a hex address does not change what is shown, nor does the case of its letters. */
  lemma DisplayIgnoresSpaceAndCase(sha: Hash, before: string, h: string, after: string)
    requires HexForm(h) && forall c :: c in before + after ==> c == ' ' || '\t' <= c <= '\r'
    ensures TronAddrDisplay(sha, before + h + after) == TronAddrDisplay(sha, ToLower(h))
  {
    HexFormExactly(h);
    var shown := before + h + after;
    assert shown == before + (h + after);
    forall c | c in before
      ensures Space(c)
    {
      assert c in before + after;
    }
    forall c | c in after
      ensures Space(c)
    {
      assert c in before + after;
    }
    TrimsInFront(before, h + after);
    TrimsBehind(h, after);
    assert TrimSpace(shown) == h;
    LowerTwice(h);
    TrimKeeps(ToLower(h));
    HexDecodeIgnoresCase(h);
    assert !HasPrefix(shown, "T") && !HasPrefix(ToLower(h), "T");
  }

  /** A canonical hex address survives being shown to the user and normalized again. */
  lemma NormalizeInvertsDisplay(sha: Hash, h: string)
    requires CanonicalHex(h)
    ensures TronAddrHex(sha, TronAddrDisplay(sha, h)) == h
    ensures IsValidTronBase58Address(sha, TronAddrDisplay(sha, h))
  {
    TrimKeeps(h);
    LowerHexIsLower(h);
    HexEncodeInvertsDecode(h);
    var payload := HexDecode(h).value;
    HexOfPayload(payload);
    DisplayVerifies(sha, payload);
    ValidatorsAgree(sha, TronAddrDisplay(sha, h));
  }

  /** And a valid Base58 address survives being normalized and shown again. */
  lemma DisplayInvertsNormalize(sha: Hash, address: string)
    ensures IsValidTronBase58Address(sha, address) ==>
              && CanonicalHex(TronAddrHex(sha, address))
              && TronAddrDisplay(sha, TronAddrHex(sha, address)) == address
  {
    ValidatorsAgree(sha, address);
    if Verified(sha, address).Some? {
      VerifiedDisplays(sha, address);
    }
  }

  lemma VerifiedDisplays(sha: Hash, address: string)
    requires Verified(sha, address).Some?
    ensures var h := HexEncode(Verified(sha, address).value);
            CanonicalHex(h) && TronAddrDisplay(sha, h) == address
  {
    var payload := Verified(sha, address).value;
    HexOfPayload(payload);
    HexDecodeInvertsEncode(payload);
    TrimKeeps(HexEncode(payload));
    EncodeInvertsDecode(address);
    assert payload + Checksum(sha, payload) == Decode(address).value;
  }

  /** A verified address, byte by byte: the prefix 0x41 and 20 more bytes, and the first four bytes of their
      double SHA-256. */
  lemma VerifiedExactly(sha: Hash, address: string, payload: seq<Byte>)
    ensures Verified(sha, address) == Some(payload) <==>
              && |payload| == 21 && payload[0] == 0x41
              && Decode(address) == Some(payload + sha(sha(payload))[..4])
  {
    if |payload| == 21 {
      var raw := payload + sha(sha(payload))[..4];
      assert raw[..21] == payload && raw[21..] == sha(sha(payload))[..4];
    }
    if Verified(sha, address).Some? {
      var raw := Decode(address).value;
      assert raw == raw[..21] + raw[21..];
    }
  }

  lemma NormalizesRaw(sha: Hash, address: string, raw: seq<Byte>)
    requires "T" <= address && Decode(address) == Some(raw) && |raw| == 25 && raw[21..] == Checksum(sha, raw[..21])
    ensures TronAddrHex(sha, address) == ToLower(HexEncode(raw[..21]))
  {
    assert ToLower(address)[0] == 't';
  }

  /** The normalizer asks less: behind a "T", 25 bytes with the right checksum become hex whatever their
      first byte is, */
  lemma NormalizesChecked(sha: Hash, address: string, payload: seq<Byte>)
    requires "T" <= address && |payload| == 21
    requires Decode(address) == Some(payload + sha(sha(payload))[..4])
    ensures TronAddrHex(sha, address) == HexEncode(payload)
  {
    var raw := payload + sha(sha(payload))[..4];
    assert raw[..21] == payload && raw[21..] == sha(sha(payload))[..4];
    NormalizesRaw(sha, address, raw);
    HexOfPayload(payload);
  }

  /** and nothing else becomes more than lower case. */
  lemma OnlyCheckedBecomesHex(sha: Hash, address: string) returns (payload: seq<Byte>)
    requires TronAddrHex(sha, address) != ToLower(address)
    ensures "T" <= address && |payload| == 21
    ensures Decode(address) == Some(payload + sha(sha(payload))[..4])
  {
    var raw := Decode(address).value;
    payload := raw[..21];
    assert raw == payload + raw[21..];
  }

  lemma {:induction false} HexDecodeIgnoresCase(s: string)
    ensures HexDecode(ToLower(s)) == HexDecode(s)
  {
    if |s| >= 2 {
      HexDecodeIgnoresCase(s[2..]);
      assert ToLower(s)[2..] == ToLower(s[2..]);
    }
  }

  lemma {:induction false} HexDigitsDecode(s: string)
    requires |s| % 2 == 0
    ensures HexDecode(s).Some? <==> LowerHex(ToLower(s))
  {
    if s != "" {
      var lower := ToLower(s);
      HexDigitsDecode(s[2..]);
      assert lower[2..] == ToLower(s[2..]);
      assert lower == [lower[0], lower[1]] + lower[2..];
      assert LowerHex(lower) ==> forall i :: 0 <= i < |s| - 2 ==> lower[2..][i] == lower[i + 2];
    }
  }

  /** The hex form: "41" and 40 more hex digits, in either case. */
  lemma HexFormExactly(value: string)
    ensures HexForm(value) <==> CanonicalHex(ToLower(value))
    ensures HexForm(value) ==> value[0] == '4' && !Space(value[41])
  {
    if |value| == 42 {
      HexDigitsDecode(value);
    }
    if HexForm(value) {
      var lower := ToLower(value);
      assert lower[0] == "41"[0] && lower[0] == Lower(value[0]);
      assert lower[41] == Lower(value[41]) && ('0' <= lower[41] <= '9' || 'a' <= lower[41] <= 'f');
    }
  }

  lemma LowerTwice(s: string)
    ensures ToLower(ToLower(s)) == ToLower(s)
  {
  }

  lemma LowerHasNoT(s: string)
    ensures !HasPrefix(ToLower(s), "T")
  {
    assert s != "" ==> ToLower(s)[0] != 'T';
  }

  /** The normalizer leaves its own results alone, and writes hex addresses in lower case. */
  lemma NormalizingIsIdempotent(sha: Hash, address: string)
    ensures TronAddrHex(sha, TronAddrHex(sha, address)) == TronAddrHex(sha, address)
    ensures HexForm(address) ==> TronAddrHex(sha, address) == ToLower(address)
  {
    var h := TronAddrHex(sha, address);
    LowerTwice(address);
    HexDecodeIgnoresCase(address);
    if h != ToLower(address) {
      LowerTwice(HexEncode(Decode(address).value[..21]));
    }
    assert ToLower(h) == h;
    LowerHasNoT(h);
  }
}
