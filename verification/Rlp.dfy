/** Recursive Length Prefix: the encoding of the Ethereum Yellow Paper, Appendix B, and the
    bounded, canonical-only reader the Gateway admits broadcasts with. */
module Rlp {
  import opened Digits

  /** Go lengths are 64-bit signed integers. */
  const LENGTH_LIMIT: nat := 0x8000_0000_0000_0000

  const MAX_DEPTH: nat := 8

  datatype Item = Str(data: seq<Byte>) | List(children: seq<Item>)

  // ----- the encoding -----

  function Header(base: nat, n: nat): (h: seq<nat>)
    ensures h != []
  {
    if n <= 55 then [base + n] else [base + 55 + |Of(256, n)|] + Of(256, n)
  }

  function Encode(t: Item): (bytes: seq<nat>)
    ensures bytes != []
    decreases t, 0
  {
    match t
    case Str(d) => if |d| == 1 && d[0] < 0x80 then d else Header(0x80, |d|) + d
    case List(cs) => Header(0xc0, |EncodeAll(cs)|) + EncodeAll(cs)
  }

  function EncodeAll(cs: seq<Item>): seq<nat>
    decreases cs, 0
  {
    if cs == [] then [] else Encode(cs[0]) + EncodeAll(cs[1..])
  }

  function Payload(t: Item): seq<nat> {
    match t
    case Str(d) => d
    case List(cs) => EncodeAll(cs)
  }

  /** The examples of the Ethereum documentation: short strings, */
  lemma KnownStrings()
    ensures Encode(Str([0x64, 0x6f, 0x67])) == [0x83, 0x64, 0x6f, 0x67]
    ensures Encode(Str([])) == [0x80]
    ensures Encode(Str([0x0f])) == [0x0f] && Encode(Str([0x80])) == [0x81, 0x80]
    ensures Encode(Str([4, 0])) == [0x82, 4, 0]
  {
  }

  /** a list of two strings, */
  lemma KnownList(cat: Item, dog: Item)
    requires Encode(cat) == [0x83, 0x63, 0x61, 0x74] && Encode(dog) == [0x83, 0x64, 0x6f, 0x67]
    ensures Encode(List([])) == [0xc0]
    ensures Encode(List([cat, dog])) == [0xc8, 0x83, 0x63, 0x61, 0x74, 0x83, 0x64, 0x6f, 0x67]
  {
    assert [cat, dog][1..] == [dog] && [dog][1..] == [];
    assert EncodeAll([dog]) == Encode(dog) + EncodeAll([]);
    assert EncodeAll([cat, dog]) == [0x83, 0x63, 0x61, 0x74, 0x83, 0x64, 0x6f, 0x67];
  }

  /** and the lengths at which headers grow. */
  lemma KnownHeaders()
    ensures Header(0x80, 55) == [0xb7] && Header(0xc0, 55) == [0xf7]
    ensures Header(0x80, 56) == [0xb8, 56] && Header(0xc0, 56) == [0xf8, 56]
    ensures Header(0x80, 1024) == [0xb9, 4, 0] && Header(0xc0, 1024) == [0xf9, 4, 0]
  {
    assert Of(256, 56) == Of(256, 0) + [56];
    assert Of(256, 4) == Of(256, 0) + [4];
    assert Of(256, 1024) == Of(256, 4) + [0];
  }

  // ----- the two resources the reader bounds -----

  /** How many lists enclose the deepest item. */
  function Height(t: Item): nat
    decreases t, 0
  {
    if t.Str? then 0 else HeightAll(t.children)
  }

  function HeightAll(cs: seq<Item>): nat
    decreases cs, 0
  {
    if cs == [] then 0
    else
      var first, others := 1 + Height(cs[0]), HeightAll(cs[1..]);
      if first >= others then first else others
  }

  /** How many items the tree holds, itself included. */
  function Count(t: Item): (n: nat)
    ensures n > 0
    decreases t, 0
  {
    1 + if t.Str? then 0 else CountAll(t.children)
  }

  function CountAll(cs: seq<Item>): nat
    decreases cs, 0
  {
    if cs == [] then 0 else Count(cs[0]) + CountAll(cs[1..])
  }

  /** t is encoded at the front of raw, within the depth and item limits. */
  ghost predicate Fits(t: Item, raw: seq<Byte>, depth: nat, budget: int) {
    && Encode(t) <= raw
    && depth + Height(t) <= MAX_DEPTH
    && Count(t) <= budget
  }

  /** cs are the children a list at this depth holds when data is its payload. */
  ghost predicate FitsAll(cs: seq<Item>, data: seq<Byte>, depth: nat, budget: int) {
    && EncodeAll(cs) == data
    && depth + HeightAll(cs) <= MAX_DEPTH
    && CountAll(cs) <= budget
  }

  // ----- headers -----

  lemma LengthOfLength(n: nat)
    requires n < LENGTH_LIMIT
    ensures |Of(256, n)| <= 8
  {
    if |Of(256, n)| > 8 {
      var ds := Of(256, n);
      ValueOf(256, n);
      ValueBounds(256, ds);
      PowMonotone(256, 8, |ds| - 1);
      MulMonotone(1, ds[0], Pow(256, |ds| - 1));
      Pow256To8();
      assert false;
    }
  }

  lemma Pow256To8()
    ensures Pow(256, 8) == 0x1_0000_0000_0000_0000
  {
  }

  function Base(r: seq<nat>): nat
    requires r != []
  {
    if r[0] >= 0xc0 then 0xc0 else 0x80
  }

  function HeadLength(r: seq<nat>): nat
    requires r != [] && r[0] >= 0x80
  {
    if r[0] <= Base(r) + 55 then 1 else r[0] - Base(r) - 54
  }

  function SizeAt(r: seq<nat>): nat
    requires r != [] && r[0] >= 0x80 && HeadLength(r) <= |r|
  {
    if r[0] <= Base(r) + 55 then r[0] - Base(r) else Value(256, r[1..HeadLength(r)])
  }

  /** r starts with a header, and the header is the shortest one for its length. */
  predicate Canonical(r: seq<nat>) {
    && r != [] && r[0] >= 0x80
    && HeadLength(r) <= |r|
    && (HeadLength(r) > 1 ==> r[1] != 0 && SizeAt(r) >= 56)
  }

  lemma HeaderDecodes(base: nat, n: nat, r: seq<Byte>)
    requires base in {0x80, 0xc0} && n < LENGTH_LIMIT && Header(base, n) <= r
    ensures Canonical(r) && Base(r) == base
    ensures n == SizeAt(r) && |Header(base, n)| == HeadLength(r)
  {
    LengthOfLength(n);
    var h := Header(base, n);
    assert r[..|h|] == h && r[0] == h[0];
    if n > 55 {
      ValueOf(256, n);
      assert h[1..] == Of(256, n);
      assert r[1..|h|] == r[..|h|][1..];
    }
  }

  lemma HeaderEncodes(r: seq<Byte>)
    requires Canonical(r)
    ensures Header(Base(r), SizeAt(r)) == r[..HeadLength(r)]
  {
    if HeadLength(r) > 1 {
      OfValue(256, r[1..HeadLength(r)]);
    }
  }

  // ----- the encoding is self-delimiting -----

  lemma Shape(t: Item, r: seq<Byte>)
    requires |r| < LENGTH_LIMIT && Encode(t) <= r
    ensures r[0] < 0x80 ==> t == Str([r[0]])
    ensures r[0] >= 0x80 ==>
              && Canonical(r) && HeadLength(r) + SizeAt(r) <= |r|
              && (t.List? <==> r[0] >= 0xc0)
              && Payload(t) == r[HeadLength(r)..HeadLength(r) + SizeAt(r)]
              && (t.Str? && |t.data| == 1 ==> t.data[0] >= 0x80)
              && |Encode(t)| == HeadLength(r) + SizeAt(r)
  {
    var base := if t.List? then 0xc0 else 0x80;
    var n := |Payload(t)|;
    var head := Header(base, n);
    if t.Str? && n == 1 && t.data[0] < 0x80 {
      assert t.data == [r[0]];
    } else {
      assert Encode(t) == head + Payload(t);
      assert head <= r && Payload(t) == r[|head|..|head| + n];
      HeaderDecodes(base, n, r);
    }
  }

  lemma {:induction false} SelfDelimiting(a: Item, b: Item, r: seq<Byte>)
    requires |r| < LENGTH_LIMIT
    requires Encode(a) <= r && Encode(b) <= r
    ensures a == b
    decreases a, 0
  {
    Shape(a, r);
    Shape(b, r);
    if a.List? {
      AllSelfDelimiting(a.children, b.children, Payload(a));
    }
  }

  lemma {:induction false} AllSelfDelimiting(xs: seq<Item>, ys: seq<Item>, r: seq<Byte>)
    requires |r| < LENGTH_LIMIT && EncodeAll(xs) == r == EncodeAll(ys)
    ensures xs == ys
    decreases xs, 0
  {
    if xs != [] && ys != [] {
      SelfDelimiting(xs[0], ys[0], r);
      AllSelfDelimiting(xs[1..], ys[1..], r[|Encode(xs[0])|..]);
      assert xs == [xs[0]] + xs[1..] && ys == [ys[0]] + ys[1..];
    }
  }

  // ----- children read so far -----

  lemma {:induction false} AllAppend(cs: seq<Item>, c: Item)
    ensures EncodeAll(cs + [c]) == EncodeAll(cs) + Encode(c)
    ensures CountAll(cs + [c]) == CountAll(cs) + Count(c)
    ensures HeightAll(cs + [c]) == if HeightAll(cs) >= 1 + Height(c) then HeightAll(cs) else 1 + Height(c)
  {
    if cs == [] {
      assert cs + [c] == [c];
      assert EncodeAll([c]) == Encode(c) + EncodeAll([]);
    } else {
      assert (cs + [c])[1..] == cs[1..] + [c];
      AllAppend(cs[1..], c);
    }
  }

  /** Every list with this payload starts with the children already read, and what is left of the
      payload encodes what is left of its children. */
  lemma {:induction false} NextEncoded(done: seq<Item>, cs: seq<Item>, rest: seq<Byte>, r: seq<Byte>)
    requires |r| < LENGTH_LIMIT && rest != []
    requires EncodeAll(done) + rest == r == EncodeAll(cs)
    ensures |done| < |cs| && forall i :: 0 <= i < |done| ==> done[i] == cs[i]
    ensures Encode(cs[|done|]) <= rest
  {
    if done == [] {
      assert r == rest && cs != [];
      assert EncodeAll(cs) == Encode(cs[0]) + EncodeAll(cs[1..]);
    } else {
      SameFirstChild(done, cs, rest, r);
      NextEncoded(done[1..], cs[1..], rest, r[|Encode(done[0])|..]);
      assert cs[1..][|done| - 1] == cs[|done|];
      forall i | 0 <= i < |done|
        ensures done[i] == cs[i]
      {
        assert i > 0 ==> done[1..][i - 1] == cs[1..][i - 1];
      }
    }
  }

  lemma SameFirstChild(done: seq<Item>, cs: seq<Item>, rest: seq<Byte>, r: seq<Byte>)
    requires |r| < LENGTH_LIMIT && done != [] && EncodeAll(done) + rest == r == EncodeAll(cs)
    ensures cs != [] && done[0] == cs[0] && |Encode(done[0])| <= |r|
    ensures EncodeAll(done[1..]) + rest == r[|Encode(done[0])|..] == EncodeAll(cs[1..])
  {
    FrontAndRest(Encode(done[0]), EncodeAll(done[1..]), rest);
    FrontAndRest(Encode(cs[0]), EncodeAll(cs[1..]), []);
    assert EncodeAll(cs[1..]) + [] == EncodeAll(cs[1..]);
    SelfDelimiting(done[0], cs[0], r);
  }

  lemma FrontAndRest(a: seq<nat>, b: seq<nat>, c: seq<nat>)
    ensures a + b + c == a + (b + c)
    ensures a <= a + b + c && (a + b + c)[|a|..] == b + c
  {
  }

  /** What comes after the first n children is counted on top of them. */
  lemma {:induction false} ChildCounts(cs: seq<Item>, n: nat)
    requires n < |cs|
    ensures CountAll(cs[..n]) + Count(cs[n]) <= CountAll(cs)
    ensures 1 + Height(cs[n]) <= HeightAll(cs)
  {
    if n > 0 {
      ChildCounts(cs[1..], n - 1);
      assert cs[..n][1..] == cs[1..][..n - 1] && cs[..n][0] == cs[0];
    }
  }

  lemma NextChild(done: seq<Item>, cs: seq<Item>, rest: seq<Byte>, r: seq<Byte>)
    requires |r| < LENGTH_LIMIT && rest != []
    requires EncodeAll(done) + rest == r == EncodeAll(cs)
    ensures |done| < |cs|
    ensures Encode(cs[|done|]) <= rest
    ensures CountAll(done) + Count(cs[|done|]) <= CountAll(cs)
    ensures 1 + Height(cs[|done|]) <= HeightAll(cs)
  {
    NextEncoded(done, cs, rest, r);
    assert cs[..|done|] == done;
    ChildCounts(cs, |done|);
  }

  lemma {:induction false} ValueOfPrefix(ds: seq<nat>, i: nat)
    requires i <= |ds|
    ensures Value(256, ds[..i]) <= Value(256, ds)
  {
    if i < |ds| {
      ValueOfPrefix(ds[..|ds| - 1], i);
      assert ds[..|ds| - 1][..i] == ds[..i];
    } else {
      assert ds[..i] == ds;
    }
  }

  // ----- the reader -----

  /** The header of the item at the front of raw. */
  method ReadHeader(raw: seq<Byte>) returns (ok: bool, isList: bool, head: nat, size: nat)
    requires raw != [] && |raw| < LENGTH_LIMIT && raw[0] >= 0x80
    ensures isList == (raw[0] >= 0xc0)
    ensures ok <==> Canonical(raw) && HeadLength(raw) + SizeAt(raw) <= |raw|
    ensures ok ==> head == HeadLength(raw) && size == SizeAt(raw)
  {
    isList := raw[0] >= 0xc0;
    var base: nat := if isList then 0xc0 else 0x80;
    head, size, ok := 1, raw[0] - base, false;
    if size > 55 {
      var lengthBytes := size - 55;
      if |raw| <= lengthBytes || raw[1] == 0 {
        return;
      }
      head := head + lengthBytes;
      size := 0;
      var i := 1;
      while i < head
        invariant 1 <= i <= head == HeadLength(raw)
        invariant size == Value(256, raw[1..i]) && size <= |raw|
      {
        assert raw[1..i + 1][..i - 1] == raw[1..i];
        assert Value(256, raw[1..i + 1]) == size * 256 + raw[i];
        ValueOfPrefix(raw[1..head], i);
        assert raw[1..head][..i] == raw[1..i + 1];
        if size > |raw| / 256 {
          return;
        }
        // The guard above keeps the sum from wrapping: it is at most |raw| + 255.
        assert size * 256 + raw[i] <= |raw| + 255;
        size := size * 256 + raw[i];
        if size > |raw| {
          return;
        }
        i := i + 1;
      }
      if size < 56 {
        return;
      }
    }
    if size > |raw| - head {
      return;
    }
    ok := true;
  }

  /** A non-canonical or overlong header, or a lone byte hidden behind a string header, starts no
      encoding at all. */
  lemma BadHeaderFitsNothing(raw: seq<Byte>, depth: nat, budget: int)
    requires 0 < |raw| < LENGTH_LIMIT && raw[0] >= 0x80
    requires Canonical(raw) && HeadLength(raw) + SizeAt(raw) <= |raw| ==>
               raw[0] < 0xc0 && SizeAt(raw) == 1 && raw[HeadLength(raw)] < 0x80
    ensures forall t :: !Fits(t, raw, depth, budget)
  {
    forall t
      ensures !Fits(t, raw, depth, budget)
    {
      if Encode(t) <= raw {
        Shape(t, raw);
      }
    }
  }

  lemma StuckListFitsNothing(raw: seq<Byte>, data: seq<Byte>, depth: nat, budget: int, left: int)
    requires 0 < |raw| < LENGTH_LIMIT && raw[0] >= 0xc0
    requires Canonical(raw) && HeadLength(raw) + SizeAt(raw) <= |raw|
    requires data == raw[HeadLength(raw)..HeadLength(raw) + SizeAt(raw)]
    requires left == budget - 1 && forall cs :: !FitsAll(cs, data, depth, left)
    ensures forall t :: !Fits(t, raw, depth, budget)
  {
    forall t
      ensures !Fits(t, raw, depth, budget)
    {
      if Fits(t, raw, depth, budget) {
        Shape(t, raw);
        assert FitsAll(t.children, data, depth, left);
      }
    }
  }

  /** Once the children read so far leave a remainder at which nothing fits, nothing fits at all. */
  lemma StuckChildFitsNothing(data: seq<Byte>, depth: nat, budget: int, done: seq<Item>, rest: seq<Byte>,
                              inner: nat, left: int)
    requires |data| < LENGTH_LIMIT && rest != []
    requires EncodeAll(done) + rest == data
    requires inner == depth + 1 && left == budget - CountAll(done)
    requires forall c :: !Fits(c, rest, inner, left)
    ensures forall cs :: !FitsAll(cs, data, depth, budget)
  {
    forall cs
      ensures !FitsAll(cs, data, depth, budget)
    {
      if FitsAll(cs, data, depth, budget) {
        NextChild(done, cs, rest, data);
        assert Fits(cs[|done|], rest, inner, left);
      }
    }
  }

  lemma NodeFits(node: Item, raw: seq<Byte>)
    requires 0 < |raw| < LENGTH_LIMIT && raw[0] >= 0x80
    requires Canonical(raw) && HeadLength(raw) + SizeAt(raw) <= |raw|
    requires node.List? == (raw[0] >= 0xc0)
    requires Payload(node) == raw[HeadLength(raw)..HeadLength(raw) + SizeAt(raw)]
    requires node.Str? && |node.data| == 1 ==> node.data[0] >= 0x80
    ensures Encode(node) == raw[..HeadLength(raw) + SizeAt(raw)]
  {
    HeaderEncodes(raw);
    assert Encode(node) == Header(Base(raw), SizeAt(raw)) + Payload(node);
  }

  /** The recursive reader. `left` is what the caller's item budget is afterwards: the source passes
      it by pointer. */
  method ReadItem(raw: seq<Byte>, depth: nat, budget: int)
    returns (node: Item, used: nat, ok: bool, left: int)
    requires |raw| < LENGTH_LIMIT
    ensures ok ==> Fits(node, raw, depth, budget) && used == |Encode(node)| && left == budget - Count(node)
    ensures !ok ==> forall t :: !Fits(t, raw, depth, budget)
    decreases |raw|, 0
  {
    node, used, ok, left := Str([]), 0, false, budget;
    if |raw| == 0 || depth > MAX_DEPTH || budget <= 0 {
      return;
    }
    left := left - 1;
    if raw[0] < 0x80 {
      return Str(raw[..1]), 1, true, left;
    }
    var headerOk, isList, head, size := ReadHeader(raw);
    if !headerOk {
      BadHeaderFitsNothing(raw, depth, budget);
      return;
    }
    var data := raw[head..head + size];
    if !isList && size == 1 && data[0] < 0x80 {
      BadHeaderFitsNothing(raw, depth, budget);
      return;
    }
    node := Str(data);
    if isList {
      var children, childrenOk, after := ReadChildren(data, depth, left);
      if !childrenOk {
        StuckListFitsNothing(raw, data, depth, budget, left);
        left := after;
        return;
      }
      node, left := List(children), after;
    }
    NodeFits(node, raw);
    used, ok := head + size, true;
  }

  /** The reader's loop over a list payload. */
  method ReadChildren(data: seq<Byte>, depth: nat, budget: int)
    returns (children: seq<Item>, ok: bool, left: int)
    requires |data| < LENGTH_LIMIT && depth <= MAX_DEPTH && budget >= 0
    ensures ok ==> FitsAll(children, data, depth, budget) && left == budget - CountAll(children)
    ensures !ok ==> forall cs :: !FitsAll(cs, data, depth, budget)
    decreases |data|, 1
  {
    var rest := data;
    children, ok, left := [], false, budget;
    while |rest| > 0
      invariant EncodeAll(children) + rest == data
      invariant left == budget - CountAll(children) && left >= 0
      invariant depth + HeightAll(children) <= MAX_DEPTH
      decreases |rest|
    {
      var child, n, childOk, after := ReadItem(rest, depth + 1, left);
      if !childOk {
        StuckChildFitsNothing(data, depth, budget, children, rest, depth + 1, left);
        left := after;
        return;
      }
      AllAppend(children, child);
      children, rest, left := children + [child], rest[n..], after;
    }
    ok := true;
  }

  /** The reader inverts the encoder behind any suffix: the tree that was encoded fits, and no other
      tree does, so by its contract `ReadItem` returns exactly that tree. */
  lemma EncodingReadsBack(t: Item, suffix: seq<Byte>, raw: seq<Byte>, depth: nat, budget: int)
    requires raw == Encode(t) + suffix && |raw| < LENGTH_LIMIT
    ensures Fits(t, raw, depth, budget) <==> depth + Height(t) <= MAX_DEPTH && Count(t) <= budget
    ensures forall u :: Fits(u, raw, depth, budget) ==> u == t
  {
    forall u | Fits(u, raw, depth, budget)
      ensures u == t
    {
      SelfDelimiting(u, t, raw);
    }
  }
}
