/** Which byte strings are admitted as broadcasts, written out field by field: the leading fields, then
    the recovery value v, r and s as numbers. */
module EnvelopeShapes {
  import opened Digits
  import opened Rlp
  import opened BroadcastEnvelope

  /** A number as a string item: its minimal big-endian bytes. */
  function Num(n: nat): Item {
    Str(NumBytes(n))
  }

  function NumBytes(n: nat): (bytes: seq<Byte>)
    ensures bytes == Of(256, n)
  {
    var ds := Of(256, n);
    seq(|ds|, i requires 0 <= i < |ds| => ds[i])
  }

  /** The fields are these leading ones, whatever they hold, and v, r and s, where v is below 2^256 and
      r and s are too, and not zero. */
  ghost predicate Signed(fields: seq<Item>, lead: seq<Item>, v: nat, r: nat, s: nat) {
    && fields == lead + [Num(v), Num(r), Num(s)]
    && v < Pow(256, 32) && 1 <= r < Pow(256, 32) && 1 <= s < Pow(256, 32)
  }

  /** One whole list, at most eight lists deep and of at most 4096 items. */
  ghost predicate Whole(bytes: seq<Byte>, fields: seq<Item>) {
    && bytes == Encode(List(fields))
    && Height(List(fields)) <= 8 && Count(List(fields)) <= 4096
  }

  // ----- numbers and the scalars the source accepts -----

  lemma NumLength(n: nat, k: nat)
    ensures |NumBytes(n)| <= k <==> n < Pow(256, k)
  {
    var ds := Of(256, n);
    ValueOf(256, n);
    PowMonotone(256, 0, k);
    if ds != [] {
      ValueBounds(256, ds);
      if |ds| <= k {
        PowMonotone(256, |ds|, k);
      } else {
        PowMonotone(256, k, |ds| - 1);
        MulMonotone(1, ds[0], Pow(256, |ds| - 1));
      }
    }
  }

  lemma MinimalIsNum(x: Item)
    requires x.Str? && (x.data != [] ==> x.data[0] != 0)
    ensures x == Num(Value(256, x.data))
  {
    OfValue(256, x.data);
    assert NumBytes(Value(256, x.data)) == x.data;
  }

  lemma SignatureIsNum(x: Item, n: nat)
    requires x == Num(n)
    ensures Signature(x) <==> 1 <= n < Pow(256, 32)
  {
    NumLength(n, 32);
  }

  lemma RecoveryIsNum(first: Byte, x: Item, n: nat)
    requires x == Num(n)
    ensures Recovery(first, x) <==> n < Pow(256, 32) && if first < 0x80 then n <= 1 else n == 27 || n == 28 || n >= 35
  {
    NumLength(n, 32);
    ValueOf(256, n);
  }

  /** The recovery values behind this first byte: a parity, or 27, 28 or an EIP-155 value. */
  predicate RightV(first: Byte, v: nat) {
    if first < 0x80 then v <= 1 else v == 27 || v == 28 || v >= 35
  }

  /** The last three fields pass the source's checks. */
  predicate TailPasses(first: Byte, fields: seq<Item>) {
    && |fields| >= 3 && Signature(fields[|fields| - 1]) && Signature(fields[|fields| - 2])
    && Recovery(first, fields[|fields| - 3])
  }

  lemma SignatureNumber(x: Item) returns (n: nat)
    requires Signature(x)
    ensures x == Num(n) && 1 <= n < Pow(256, 32)
  {
    n := Value(256, x.data);
    MinimalIsNum(x);
    SignatureIsNum(x, n);
  }

  lemma PassingIsSigned(first: Byte, fields: seq<Item>) returns (v: nat, r: nat, s: nat)
    requires TailPasses(first, fields)
    ensures Signed(fields, fields[..|fields| - 3], v, r, s) && RightV(first, v)
  {
    var n := |fields|;
    var x, y, z := fields[n - 3], fields[n - 2], fields[n - 1];
    r := SignatureNumber(y);
    s := SignatureNumber(z);
    v := Value(256, x.data);
    MinimalIsNum(x);
    RecoveryIsNum(first, x, v);
    assert fields == fields[..n - 3] + [x, y, z];
  }

  lemma SignedPasses(first: Byte, fields: seq<Item>, lead: seq<Item>, v: nat, r: nat, s: nat)
    requires Signed(fields, lead, v, r, s) && RightV(first, v)
    ensures TailPasses(first, fields)
  {
    var n := |fields|;
    assert fields[n - 3] == Num(v) && fields[n - 2] == Num(r) && fields[n - 1] == Num(s);
    SignatureIsNum(fields[n - 2], r);
    SignatureIsNum(fields[n - 1], s);
    RecoveryIsNum(first, fields[n - 3], v);
  }

  /** Fields of a signed transaction with the given number of leading ones, behind this first byte. */
  ghost predicate SignedAs(first: Byte, fields: seq<Item>, leading: nat) {
    exists lead, v, r, s :: Signed(fields, lead, v, r, s) && |lead| == leading && RightV(first, v)
  }

  lemma SignedAsTail(first: Byte, fields: seq<Item>, leading: nat)
    ensures SignedAs(first, fields, leading) <==> |fields| == leading + 3 && TailPasses(first, fields)
  {
    if SignedAs(first, fields, leading) {
      var lead, v, r, s :| Signed(fields, lead, v, r, s) && |lead| == leading && RightV(first, v);
      SignedPasses(first, fields, lead, v, r, s);
    }
    if |fields| == leading + 3 && TailPasses(first, fields) {
      var v, r, s := PassingIsSigned(first, fields);
    }
  }

  // ----- the shapes -----

  /** Legacy: six leading fields, and v is 27, 28 or an EIP-155 value. */
  lemma LegacyExactly(raw: seq<Byte>)
    requires raw != [] && raw[0] >= 0x80
    ensures Admitted(raw) <==> exists fields: seq<Item> :: Whole(raw, fields) && SignedAs(raw[0], fields, 6)
  {
    forall fields: seq<Item>
      ensures EnvelopeOf(raw, List(fields)) <==> Whole(raw, fields) && SignedAs(raw[0], fields, 6)
    {
      SignedAsTail(raw[0], fields, 6);
    }
    OnlyLists(raw);
  }

  lemma OnlyLists(raw: seq<Byte>)
    ensures Admitted(raw) <==> exists fields: seq<Item> :: EnvelopeOf(raw, List(fields))
  {
    if Admitted(raw) {
      var root :| EnvelopeOf(raw, root);
      assert root == List(root.children);
    }
  }

  /** EIP-2930 and EIP-1559: eight and nine leading fields, the access list among them, and v is the
      parity. */
  lemma TypedExactly(raw: seq<Byte>)
    requires raw != [] && (raw[0] == 1 || raw[0] == 2)
    ensures Admitted(raw) <==>
              exists fields: seq<Item> ::
                Whole(raw[1..], fields) && SignedAs(raw[0], fields, if raw[0] == 1 then 8 else 9)
  {
    var leading := if raw[0] == 1 then 8 else 9;
    forall fields: seq<Item>
      ensures EnvelopeOf(raw, List(fields)) <==> Whole(raw[1..], fields) && SignedAs(raw[0], fields, leading)
    {
      SignedAsTail(raw[0], fields, leading);
    }
    OnlyLists(raw);
  }

  /** At least six leading fields. */
  ghost predicate SignedLoosely(first: Byte, fields: seq<Item>) {
    |fields| >= 9 && SignedAs(first, fields, |fields| - 3)
  }

  lemma LooseTail(first: Byte, fields: seq<Item>)
    ensures SignedLoosely(first, fields) <==> |fields| >= 9 && TailPasses(first, fields)
  {
    if |fields| >= 9 {
      SignedAsTail(first, fields, |fields| - 3);
    }
  }

  /** A signed transaction of at least nine fields, or a list of one and three sidecar items. */
  ghost predicate BlobFields(fields: seq<Item>) {
    SignedLoosely(3, fields) || (|fields| == 4 && fields[0].List? && SignedLoosely(3, fields[0].children))
  }

  lemma BlobFieldsPass(root: Item)
    requires root.List?
    ensures BlobFields(root.children) <==> SignedFields(3, root)
  {
    LooseTail(3, root.children);
    if |root.children| == 4 && root.children[0].List? {
      LooseTail(3, root.children[0].children);
    }
  }

  /** Blobs, with and without their wrapper. */
  lemma BlobExactly(raw: seq<Byte>)
    requires raw != [] && raw[0] == 3
    ensures Admitted(raw) <==> exists fields: seq<Item> :: Whole(raw[1..], fields) && BlobFields(fields)
  {
    forall fields: seq<Item>
      ensures EnvelopeOf(raw, List(fields)) <==> Whole(raw[1..], fields) && BlobFields(fields)
    {
      BlobFieldsPass(List(fields));
    }
    OnlyLists(raw);
  }

  /** Any other type: a signed transaction of at least nine fields; type 0 is never admitted. */
  lemma OtherTypesExactly(raw: seq<Byte>)
    requires raw != [] && (raw[0] == 0 || 3 < raw[0] < 0x80)
    ensures Admitted(raw) <==>
              raw[0] != 0 && exists fields: seq<Item> :: Whole(raw[1..], fields) && SignedLoosely(raw[0], fields)
  {
    forall fields: seq<Item>
      ensures EnvelopeOf(raw, List(fields)) <==>
                raw[0] != 0 && Whole(raw[1..], fields) && SignedLoosely(raw[0], fields)
    {
      LooseTail(raw[0], fields);
      assert SignedFields(raw[0], List(fields)) <==> |fields| >= 9 && TailPasses(raw[0], fields);
    }
    OnlyLists(raw);
  }

  /** So an EIP-1559 transaction is admitted, whatever its nine leading fields, if it stays within the two
      limits. */
  lemma Eip1559IsAdmitted(raw: seq<Byte>, lead: seq<Item>, parity: nat, r: nat, s: nat)
    requires |lead| == 9 && parity <= 1 && 1 <= r < Pow(256, 32) && 1 <= s < Pow(256, 32)
    requires var t := List(lead + [Num(parity), Num(r), Num(s)]);
             raw == [2] + Encode(t) && Height(t) <= 8 && Count(t) <= 4096
    ensures Admitted(raw)
  {
    var fields := lead + [Num(parity), Num(r), Num(s)];
    PowMonotone(256, 1, 32);
    assert Pow(256, 1) == 256;
    assert Signed(fields, lead, parity, r, s);
    assert raw[1..] == Encode(List(fields));
    assert Whole(raw[1..], fields);
    TypedExactly(raw);
  }
}
