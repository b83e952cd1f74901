/** Admission of EVM broadcasts: framing and the presence of a signature. */
module BroadcastEnvelope {
  import opened Digits
  import opened Rlp

  const ITEM_BUDGET: nat := 4096

  /** What the first byte and the fields of the transaction list have to look like. The blob type
      may wrap its signed transaction with sidecars. */
  predicate SignedFields(first: Byte, root: Item) {
    && root.List?
    && var fields := Transaction(first, root);
       && |fields| >= 9
       && (first >= 0x80 ==> |fields| == 9)
       && (first == 1 ==> |fields| == 11)
       && (first == 2 ==> |fields| == 12)
       && Signature(fields[|fields| - 1])
       && Signature(fields[|fields| - 2])
       && Recovery(first, fields[|fields| - 3])
  }

  function Transaction(first: Byte, root: Item): seq<Item>
    requires root.List?
  {
    var fields := root.children;
    if first == 3 && |fields| == 4 && fields[0].List? then fields[0].children else fields
  }

  /** A non-zero 256-bit integer in minimal form: r or s. */
  predicate Signature(x: Item) {
    x.Str? && 1 <= |x.data| <= 32 && x.data[0] != 0
  }

  /** y-parity 0 or 1 for typed transactions; 27, 28 or an EIP-155 value of at least 35 for legacy
      ones. */
  predicate Recovery(first: Byte, v: Item) {
    && v.Str? && AllBelow(256, v.data)
    && (v.data != [] ==> v.data[0] != 0)
    && |v.data| <= 32
    && var n := Value(256, v.data);
       if first < 0x80 then n <= 1 else n in {27, 28} || n >= 35
  }

  /** raw is this tree, whole, behind a non-zero type byte if its first byte is below 0x80. */
  ghost predicate EnvelopeOf(raw: seq<Byte>, root: Item) {
    && raw != [] && raw[0] != 0
    && Encode(root) == Body(raw)
    && Height(root) <= MAX_DEPTH && Count(root) <= ITEM_BUDGET
    && SignedFields(raw[0], root)
  }

  function Body(raw: seq<Byte>): seq<Byte>
    requires raw != []
  {
    if raw[0] < 0x80 then raw[1..] else raw
  }

  ghost predicate Admitted(raw: seq<Byte>) {
    exists root :: EnvelopeOf(raw, root)
  }

  lemma RecoveryByBytes(v: seq<Byte>)
    ensures v == [] ==> Value(256, v) == 0
    ensures |v| == 1 ==> Value(256, v) == v[0]
    ensures |v| > 1 && v[0] != 0 ==> Value(256, v) >= 256
  {
  }

  method ValidEVMBroadcastEnvelope(raw: seq<Byte>) returns (valid: bool)
    requires |raw| < LENGTH_LIMIT
    ensures valid <==> Admitted(raw)
  {
    valid := false;
    if |raw| == 0 {
      return;
    }
    var typed, txType := raw[0] < 0x80, raw[0];
    var body := raw;
    if typed {
      if txType == 0 {
        return;
      }
      body := raw[1..];
    }
    var root, used, ok, _ := ReadItem(body, 0, ITEM_BUDGET);
    if !ok {
      forall other
        ensures !EnvelopeOf(raw, other)
      {
        assert !Fits(other, body, 0, ITEM_BUDGET);
      }
      return;
    }
    forall other | Encode(other) == body
      ensures other == root
    {
      SelfDelimiting(other, root, body);
    }
    if used != |body| || !root.List? {
      return;
    }
    valid := CheckFields(typed, txType, root);
    if valid {
      assert EnvelopeOf(raw, root);
    }
  }

  method CheckFields(typed: bool, txType: Byte, root: Item) returns (valid: bool)
    requires root.List? && typed == (txType < 0x80)
    ensures valid == SignedFields(txType, root)
  {
    var fields := root.children;
    if txType == 3 && |fields| == 4 && fields[0].List? {
      fields := fields[0].children;
    }
    if |fields| < 9 || (!typed && |fields| != 9)
       || (txType == 1 && |fields| != 11) || (txType == 2 && |fields| != 12) {
      return false;
    }
    for i := |fields| - 2 to |fields|
      invariant forall j :: |fields| - 2 <= j < i ==> Signature(fields[j])
    {
      var scalar := fields[i];
      if scalar.List? || |scalar.data| == 0 || |scalar.data| > 32 || scalar.data[0] == 0 {
        return false;
      }
    }
    var v := fields[|fields| - 3];
    if v.List? || |v.data| > 32 || (|v.data| > 0 && v.data[0] == 0) {
      return false;
    }
    RecoveryByBytes(v.data);
    if typed {
      return |v.data| == 0 || (|v.data| == 1 && v.data[0] == 1);
    }
    return |v.data| > 1 || (|v.data| == 1 && (v.data[0] == 27 || v.data[0] == 28 || v.data[0] >= 35));
  }

  /** Framing is unambiguous: no admitted byte string is a strict prefix of another one, whatever
      the transaction types, and one byte string is one transaction. */
  lemma AdmittedIsPrefixFree(a: seq<Byte>, b: seq<Byte>)
    requires |b| < LENGTH_LIMIT
    ensures Admitted(a) && Admitted(b) && a <= b ==> a == b
  {
    if Admitted(a) && Admitted(b) && a <= b {
      var x :| EnvelopeOf(a, x);
      var y :| EnvelopeOf(b, y);
      assert Body(a) <= Body(b);
      SelfDelimiting(x, y, Body(b));
    }
  }

  lemma AdmittedIsOneTransaction(raw: seq<Byte>, x: Item, y: Item)
    requires |raw| < LENGTH_LIMIT
    requires EnvelopeOf(raw, x) && EnvelopeOf(raw, y)
    ensures x == y
  {
    SelfDelimiting(x, y, Body(raw));
  }
}
