/** The native signers' codecs: the RLP reader that decodes unsigned EIP-1559 transactions on Android
    (32-bit wrapping arithmetic) and iOS, and the protobuf framing of signed TRON transactions. */
module NativeCodec {
  import opened Digits
  import opened Rlp

  const INT_LIMIT: int := 0x8000_0000

  /** Kotlin's Int arithmetic. */
  function Wrap(x: int): (r: int)
    ensures -INT_LIMIT <= r < INT_LIMIT
    ensures -INT_LIMIT <= x < INT_LIMIT ==> r == x
  {
    (x + INT_LIMIT) % (2 * INT_LIMIT) - INT_LIMIT
  }

  datatype Platform = Kotlin | Swift

  /** OutOfBounds is the runtime's index check, Invalid the reader's own refusal. */
  datatype Result<+T> = Ok(value: T) | Invalid | OutOfBounds {
    predicate IsFailure() {
      !Ok?
    }
    function PropagateFailure<U>(): Result<U>
      requires !Ok?
    {
      if Invalid? then Invalid else OutOfBounds
    }
    function Extract(): T
      requires Ok?
    {
      value
    }
  }

  datatype RlpItem = RlpItem(bytes: seq<Byte>, isList: bool, next: nat)

  // ----- Android -----

  function KotlinLength(source: seq<Byte>, start: int, count: int): Result<int> {
    if !(1 <= count <= 4) || Wrap(start + count) > |source| then Invalid
    else if !(0 <= start < |source|) then OutOfBounds
    else if source[start] == 0 then Invalid
    else if start + count > |source| then OutOfBounds
    else Ok(Wrap(Value(256, source[start..start + count])))
  }

  function KotlinSlice(source: seq<Byte>, start: int, length: int, header: int, isList: bool): Result<RlpItem> {
    var from := Wrap(start + header);
    var end := Wrap(from + length);
    if length < 0 || from < 0 || end < from || end > |source| then Invalid
    else Ok(RlpItem(source[from..end], isList, end))
  }

  function KotlinRead(source: seq<Byte>, start: int): Result<RlpItem>
    requires |source| < INT_LIMIT
  {
    if !(0 <= start < |source|) then Invalid
    else
      var prefix := source[start];
      if prefix <= 0x7f then Ok(RlpItem([source[start]], false, Wrap(start + 1)))
      else if prefix <= 0xb7 then KotlinSlice(source, start, prefix - 0x80, 1, false)
      else if prefix <= 0xbf then
        var sizeBytes := prefix - 0xb7;
        var length :- KotlinLength(source, Wrap(start + 1), sizeBytes);
        KotlinSlice(source, start, length, 1 + sizeBytes, false)
      else if prefix <= 0xf7 then KotlinSlice(source, start, prefix - 0xc0, 1, true)
      else
        var sizeBytes := prefix - 0xf7;
        var length :- KotlinLength(source, Wrap(start + 1), sizeBytes);
        KotlinSlice(source, start, length, 1 + sizeBytes, true)
  }

  // ----- iOS: 64-bit, and no check for a leading zero in a length -----

  function SwiftLength(data: seq<Byte>, start: int, count: int): Result<int>
    requires 0 <= start
  {
    if !(0 < count <= 4) || start + count > |data| then Invalid
    else Ok(Value(256, data[start..start + count]))
  }

  function SwiftPayload(data: seq<Byte>, offset: int, header: int, length: int, isList: bool): Result<RlpItem>
    requires 0 <= offset && 0 <= header
  {
    var start := offset + header;
    var end := start + length;
    if length < 0 || end > |data| then Invalid else Ok(RlpItem(data[start..end], isList, end))
  }

  function SwiftRead(data: seq<Byte>, offset: int): Result<RlpItem>
    requires 0 <= offset
  {
    if offset >= |data| then Invalid
    else
      var prefix := data[offset];
      if prefix <= 0x7f then Ok(RlpItem([data[offset]], false, offset + 1))
      else if prefix <= 0xb7 then SwiftPayload(data, offset, 1, prefix - 0x80, false)
      else if prefix <= 0xbf then
        var lengthOfLength := prefix - 0xb7;
        var length :- SwiftLength(data, offset + 1, lengthOfLength);
        SwiftPayload(data, offset, 1 + lengthOfLength, length, false)
      else if prefix <= 0xf7 then SwiftPayload(data, offset, 1, prefix - 0xc0, true)
      else
        var lengthOfLength := prefix - 0xf7;
        var length :- SwiftLength(data, offset + 1, lengthOfLength);
        SwiftPayload(data, offset, 1 + lengthOfLength, length, true)
  }

  // ----- the readers stay in bounds and make progress -----

  /** Whatever the bytes, an item read is a slice of the source that ends behind its start. Wrapping
      sums never turn an overlong length into a valid one. */
  lemma KotlinReadInBounds(source: seq<Byte>, start: int)
    requires |source| < INT_LIMIT
    ensures var r := KotlinRead(source, start);
            r.Ok? ==>
              && 0 <= start < r.value.next <= |source|
              && |r.value.bytes| <= r.value.next - start
              && r.value.bytes == source[r.value.next - |r.value.bytes|..r.value.next]
  {
  }

  lemma SwiftReadInBounds(data: seq<Byte>, offset: int)
    requires 0 <= offset
    ensures var r := SwiftRead(data, offset);
            r.Ok? ==>
              && offset < r.value.next <= |data|
              && |r.value.bytes| <= r.value.next - offset
              && r.value.bytes == data[r.value.next - |r.value.bytes|..r.value.next]
  {
  }

  /** A long-form header whose length starts with a zero byte. */
  predicate PaddedLength(source: seq<Byte>, start: int) {
    && 0 <= start < |source| - 1
    && (0xb8 <= source[start] <= 0xbf || 0xf8 <= source[start])
    && source[start + 1] == 0
  }

  lemma ValueBelow(bytes: seq<Byte>)
    requires 1 <= |bytes| <= 4
    ensures Value(256, bytes) < 2 * INT_LIMIT
  {
    ValueBounds(256, bytes);
    PowMonotone(256, |bytes|, 4);
    assert Pow(256, 4) == 2 * INT_LIMIT;
  }

  lemma SlicesAgree(source: seq<Byte>, start: nat, length: nat, header: nat, isList: bool)
    requires start < |source| < INT_LIMIT && length < 2 * INT_LIMIT && header <= 5
    ensures KotlinSlice(source, start, Wrap(length), header, isList).Ok?
            <==> SwiftPayload(source, start, header, length, isList).Ok?
    ensures KotlinSlice(source, start, Wrap(length), header, isList).Ok? ==>
              KotlinSlice(source, start, Wrap(length), header, isList)
              == SwiftPayload(source, start, header, length, isList)
  {
  }

  lemma LongFormsAgree(source: seq<Byte>, start: nat, count: nat, isList: bool)
    requires start < |source| < INT_LIMIT && 1 <= count <= 8
    ensures var k, s := KotlinLength(source, Wrap(start + 1), count), SwiftLength(source, start + 1, count);
            && (k.Ok? <==> s.Ok? && source[start + 1] != 0)
            && (k.Ok? ==> 0 <= s.value < 2 * INT_LIMIT && k.value == Wrap(s.value))
            && (k.Ok? ==> (KotlinSlice(source, start, k.value, 1 + count, isList).Ok?
                           <==> SwiftPayload(source, start, 1 + count, s.value, isList).Ok?))
            && (k.Ok? && SwiftPayload(source, start, 1 + count, s.value, isList).Ok? ==>
                  KotlinSlice(source, start, k.value, 1 + count, isList)
                  == SwiftPayload(source, start, 1 + count, s.value, isList))
  {
    var s := SwiftLength(source, start + 1, count);
    if s.Ok? {
      ValueBelow(source[start + 1..start + 1 + count]);
      SlicesAgree(source, start, s.value, 1 + count, isList);
    }
  }

  ghost predicate ReadAlike(source: seq<Byte>, start: nat)
    requires |source| < INT_LIMIT
  {
    && (KotlinRead(source, start).Ok? <==> SwiftRead(source, start).Ok? && !PaddedLength(source, start))
    && (KotlinRead(source, start).Ok? ==> KotlinRead(source, start) == SwiftRead(source, start))
  }

  lemma LongStringsAgree(source: seq<Byte>, start: nat)
    requires start < |source| < INT_LIMIT && 0xb8 <= source[start] <= 0xbf
    ensures ReadAlike(source, start)
  {
    LongFormsAgree(source, start, source[start] - 0xb7, false);
  }

  lemma LongListsAgree(source: seq<Byte>, start: nat)
    requires start < |source| < INT_LIMIT && 0xf8 <= source[start]
    ensures ReadAlike(source, start)
  {
    LongFormsAgree(source, start, source[start] - 0xf7, true);
  }

  lemma ShortFormsAgree(source: seq<Byte>, start: nat)
    requires start < |source| < INT_LIMIT && !(0xb8 <= source[start] <= 0xbf) && source[start] < 0xf8
    ensures ReadAlike(source, start)
  {
  }

  /** Both platforms read the same items, except that only iOS accepts a padded length. */
  lemma PlatformsDifferOnPaddingOnly(source: seq<Byte>, start: nat)
    requires |source| < INT_LIMIT
    ensures KotlinRead(source, start).Ok? <==> SwiftRead(source, start).Ok? && !PaddedLength(source, start)
    ensures KotlinRead(source, start).Ok? ==> KotlinRead(source, start) == SwiftRead(source, start)
  {
    if start < |source| {
      if 0xb8 <= source[start] <= 0xbf {
        LongStringsAgree(source, start);
      } else if 0xf8 <= source[start] {
        LongListsAgree(source, start);
      } else {
        ShortFormsAgree(source, start);
      }
      assert ReadAlike(source, start);
    }
  }

  // ----- the length loops -----

  method ReadLengthKotlin(source: seq<Byte>, start: int, count: int) returns (r: Result<int>)
    requires -INT_LIMIT <= start < INT_LIMIT && -INT_LIMIT <= count < INT_LIMIT
    ensures r == KotlinLength(source, start, count)
  {
    if !(1 <= count <= 4) || Wrap(start + count) > |source| {
      return Invalid;
    }
    if !(0 <= start < |source|) {
      return OutOfBounds;
    }
    if source[start] == 0 {
      return Invalid;
    }
    var value: int := 0;
    for it := 0 to count
      invariant start + it <= |source| && value == Wrap(Value(256, source[start..start + it]))
    {
      if start + it >= |source| {
        return OutOfBounds;
      }
      assert source[start..start + it + 1][..it] == source[start..start + it];
      WrapShift(Value(256, source[start..start + it]), source[start + it]);
      value := Wrap(value * 256 + source[start + it]); // shl 8, or
    }
    return Ok(value);
  }

  lemma WrapShift(v: int, b: Byte)
    ensures Wrap(Wrap(v) * 256 + b) == Wrap(v * 256 + b)
  {
    var q := (v + INT_LIMIT) / (2 * INT_LIMIT);
    assert v == Wrap(v) + q * (2 * INT_LIMIT);
    WrapPeriod(Wrap(v) * 256 + b, q * 256);
  }

  lemma WrapPeriod(x: int, q: int)
    ensures Wrap(x + q * (2 * INT_LIMIT)) == Wrap(x)
  {
  }

  method RlpLengthSwift(data: seq<Byte>, start: nat, count: int) returns (r: Result<int>)
    ensures r == SwiftLength(data, start, count)
  {
    if !(count > 0 && count <= 4 && start + count <= |data|) {
      return Invalid;
    }
    var value: int := 0;
    for i := start to start + count
      invariant value == Value(256, data[start..i])
    {
      assert data[start..i + 1][..i - start] == data[start..i];
      value := value * 256 + data[i];
    }
    return Ok(value);
  }

  // ----- what the readers read, whether it is canonical or not -----

  /** The bytes frame this payload: a byte below 0x80 stands for itself; a payload of at most 55 bytes has
      a one-byte header; any payload may have its length in one to four bytes behind the header, of which
      Android wants the first not to be zero. */
  ghost predicate Framed(p: Platform, bytes: seq<Byte>, payload: seq<Byte>, isList: bool) {
    var base := if isList then 0xc0 else 0x80;
    || (!isList && |bytes| == 1 && bytes[0] < 0x80 && payload == bytes)
    || (|payload| <= 55 && bytes == [base + |payload|] + payload)
    || exists length :: LongFrame(p, bytes, payload, base, length)
  }

  ghost predicate LongFrame(p: Platform, bytes: seq<Byte>, payload: seq<Byte>, base: nat, length: seq<Byte>) {
    && 1 <= |length| <= 4 && Value(256, length) == |payload|
    && (p.Kotlin? ==> length[0] != 0)
    && bytes == [base + 55 + |length|] + length + payload
  }

  /** Every item read is framed, */
  lemma ReadIsFramed(p: Platform, source: seq<Byte>, start: nat, item: RlpItem)
    requires |source| < INT_LIMIT && Read(p, source, start) == Ok(item)
    ensures start < item.next <= |source| && Framed(p, source[start..item.next], item.bytes, item.isList)
  {
    PlatformsDifferOnPaddingOnly(source, start);
    SwiftReadIsFramed(p, source, start, item);
  }

  lemma SwiftReadIsFramed(p: Platform, source: seq<Byte>, start: nat, item: RlpItem)
    requires |source| < INT_LIMIT && SwiftRead(source, start) == Ok(item)
    requires p.Kotlin? ==> !PaddedLength(source, start)
    ensures start < item.next <= |source| && Framed(p, source[start..item.next], item.bytes, item.isList)
  {
    if 0xb8 <= source[start] <= 0xbf || 0xf8 <= source[start] {
      LongReadIsFramed(p, source, start, item);
    } else if source[start] >= 0x80 {
      var base := if item.isList then 0xc0 else 0x80;
      assert source[start..item.next] == [base + |item.bytes|] + item.bytes;
    }
  }

  lemma LongReadIsFramed(p: Platform, source: seq<Byte>, start: nat, item: RlpItem)
    requires |source| < INT_LIMIT && SwiftRead(source, start) == Ok(item)
    requires 0xb8 <= source[start] <= 0xbf || 0xf8 <= source[start]
    requires p.Kotlin? ==> !PaddedLength(source, start)
    ensures start < item.next <= |source| && Framed(p, source[start..item.next], item.bytes, item.isList)
  {
    var base := if item.isList then 0xc0 else 0x80;
    var n := source[start] - base - 55;
    assert SwiftLength(source, start + 1, n).Ok?;
    var length := source[start + 1..start + 1 + n];
    assert item.bytes == source[start + 1 + n..item.next];
    assert source[start..item.next] == [source[start]] + length + item.bytes;
    assert LongFrame(p, source[start..item.next], item.bytes, base, length);
  }

  /** and everything framed is read. */
  lemma FramedIsRead(p: Platform, source: seq<Byte>, start: nat, next: nat, payload: seq<Byte>, isList: bool)
    requires start < next <= |source| < INT_LIMIT && Framed(p, source[start..next], payload, isList)
    ensures Read(p, source, start) == Ok(RlpItem(payload, isList, next))
  {
    PlatformsDifferOnPaddingOnly(source, start);
    SwiftReadsFramed(p, source, start, next, payload, isList);
  }

  lemma SwiftReadsFramed(p: Platform, source: seq<Byte>, start: nat, next: nat, payload: seq<Byte>, isList: bool)
    requires start < next <= |source| < INT_LIMIT && Framed(p, source[start..next], payload, isList)
    ensures SwiftRead(source, start) == Ok(RlpItem(payload, isList, next))
    ensures p.Kotlin? ==> !PaddedLength(source, start)
  {
    var base := if isList then 0xc0 else 0x80;
    var bytes := source[start..next];
    assert source[start] == bytes[0];
    if !isList && |bytes| == 1 && bytes[0] < 0x80 && payload == bytes {
      assert payload == [source[start]] && next == start + 1;
    } else if |payload| <= 55 && bytes == [base + |payload|] + payload {
      assert source[start + 1..next] == bytes[1..];
      assert bytes[1..] == payload;
      assert SwiftPayload(source, start, 1, |payload|, isList) == Ok(RlpItem(payload, isList, next));
    } else {
      var length :| LongFrame(p, bytes, payload, base, length);
      LongFrameIsRead(p, source, start, next, payload, isList, length);
    }
  }

  lemma FrontOf(a: seq<Byte>, b: seq<Byte>, tail: seq<Byte>)
    requires a != [] && tail == a + b
    ensures tail[0] == a[0] && tail[..|a|] == a && tail[|a|..] == b
  {
  }

  lemma LongFrameIsRead(p: Platform, source: seq<Byte>, start: nat, next: nat, payload: seq<Byte>, isList: bool,
                        length: seq<Byte>)
    requires start < next <= |source| < INT_LIMIT
    requires LongFrame(p, source[start..next], payload, if isList then 0xc0 else 0x80, length)
    ensures SwiftRead(source, start) == Ok(RlpItem(payload, isList, next))
    ensures p.Kotlin? ==> !PaddedLength(source, start)
  {
    var bytes := source[start..next];
    var tail := source[start + 1..next];
    assert tail == bytes[1..] == length + payload;
    FrontOf(length, payload, tail);
    SlicesOf(source, start, next, length, payload, tail);
    assert source[start] == bytes[0] == (if isList then 0xc0 else 0x80) + 55 + |length|;
    assert next == start + 1 + |length| + |payload|;
    LengthIsRead(source, start + 1, |length|, length);
  }

  lemma SlicesOf(source: seq<Byte>, start: nat, next: nat, length: seq<Byte>, payload: seq<Byte>, tail: seq<Byte>)
    requires start < next <= |source| && tail == source[start + 1..next] && length != []
    requires tail == length + payload && tail[..|length|] == length && tail[|length|..] == payload
    ensures next == start + 1 + |length| + |payload|
    ensures source[start + 1..start + 1 + |length|] == length && source[start + 1 + |length|..next] == payload
    ensures source[start + 1] == length[0]
  {
    assert source[start + 1] == tail[0];
  }

  lemma LengthIsRead(source: seq<Byte>, from: nat, n: nat, length: seq<Byte>)
    requires 1 <= n <= 4 && from + n <= |source| < INT_LIMIT && source[from..from + n] == length
    requires Value(256, length) < INT_LIMIT
    ensures SwiftLength(source, from, n) == Ok(Value(256, length))
  {
  }

  // ----- decoding an unsigned EIP-1559 transaction -----

  datatype Eip1559Fields = Eip1559Fields(
    chainId: seq<Byte>, nonce: seq<Byte>, maxPriorityFeePerGas: seq<Byte>, maxFeePerGas: seq<Byte>,
    gasLimit: seq<Byte>, to: seq<Byte>, value: seq<Byte>, data: seq<Byte>)

  function Read(p: Platform, source: seq<Byte>, start: nat): (r: Result<RlpItem>)
    requires |source| < INT_LIMIT
    ensures r.Ok? ==> start < r.value.next <= |source| && |r.value.bytes| < |source| + 1
  {
    KotlinReadInBounds(source, start);
    SwiftReadInBounds(source, start);
    if p.Kotlin? then KotlinRead(source, start) else SwiftRead(source, start)
  }

  function ReadAll(p: Platform, source: seq<Byte>, offset: nat): Result<seq<RlpItem>>
    requires |source| < INT_LIMIT
    decreases |source| - offset
  {
    if offset >= |source| then Ok([])
    else
      var item :- Read(p, source, offset);
      var others :- ReadAll(p, source, item.next);
      Ok([item] + others)
  }

  function FieldsOf(items: seq<RlpItem>): Result<Eip1559Fields> {
    if |items| != 9 || (exists i :: 0 <= i < 8 && items[i].isList) then Invalid
    else if !items[8].isList || items[8].bytes != [] then Invalid
    else if |items[5].bytes| != 20 then Invalid
    else Ok(Eip1559Fields(items[0].bytes, items[1].bytes, items[2].bytes, items[3].bytes,
                          items[4].bytes, items[5].bytes, items[6].bytes, items[7].bytes))
  }

  function Decode(p: Platform, input: seq<Byte>): Result<Eip1559Fields>
    requires |input| < INT_LIMIT
  {
    if |input| < 3 || input[0] != 2 then Invalid
    else
      var outer :- Read(p, input, 1);
      if !outer.isList || outer.next != |input| then Invalid
      else
        var items :- ReadAll(p, outer.bytes, 0);
        FieldsOf(items)
  }

  method DecodeEip1559(p: Platform, input: seq<Byte>) returns (r: Result<Eip1559Fields>)
    requires |input| < INT_LIMIT
    ensures r == Decode(p, input)
  {
    if |input| < 3 || input[0] != 2 {
      return Invalid;
    }
    var outer :- Read(p, input, 1);
    if !outer.isList || outer.next != |input| {
      return Invalid;
    }
    var fields :- ReadFields(p, outer.bytes);
    return FieldsOf(fields);
  }

  /** The loop of the decoder. */
  method ReadFields(p: Platform, source: seq<Byte>) returns (r: Result<seq<RlpItem>>)
    requires |source| < INT_LIMIT
    ensures r == ReadAll(p, source, 0)
  {
    var fields: seq<RlpItem> := [];
    var offset := 0;
    AfterNone(ReadAll(p, source, 0));
    while offset < |source|
      invariant ReadAll(p, source, 0) == After(fields, ReadAll(p, source, offset))
      decreases |source| - offset
    {
      ghost var before, start := fields, offset;
      var item :- Read(p, source, offset);
      fields := fields + [item];
      offset := item.next;
      ReadOneMore(p, source, start, before);
    }
    assert fields + [] == fields;
    return Ok(fields);
  }

  function After(fields: seq<RlpItem>, rest: Result<seq<RlpItem>>): Result<seq<RlpItem>> {
    if rest.Ok? then Ok(fields + rest.value) else rest
  }

  lemma AfterNone(rest: Result<seq<RlpItem>>)
    ensures After([], rest) == rest
  {
    if rest.Ok? {
      assert [] + rest.value == rest.value;
    }
  }

  lemma ReadOneMore(p: Platform, source: seq<Byte>, offset: nat, fields: seq<RlpItem>)
    requires |source| < INT_LIMIT && offset < |source| && Read(p, source, offset).Ok?
    ensures var item := Read(p, source, offset).value;
            After(fields, ReadAll(p, source, offset)) == After(fields + [item], ReadAll(p, source, item.next))
  {
    var item := Read(p, source, offset).value;
    var others := ReadAll(p, source, item.next);
    if others.Ok? {
      assert fields + ([item] + others.value) == (fields + [item]) + others.value;
    }
  }

  /** The items of a payload tile it: each starts where the one before ended, and the last one ends
      with the payload. */
  lemma {:induction false} ItemsTile(p: Platform, source: seq<Byte>, offset: nat)
    requires |source| < INT_LIMIT && offset < |source| && ReadAll(p, source, offset).Ok?
    ensures var items := ReadAll(p, source, offset).value;
            && items != []
            && Read(p, source, offset) == Ok(items[0])
            && (forall i :: 1 <= i < |items| ==>
                  Read(p, source, items[i - 1].next) == Ok(items[i]))
            && items[|items| - 1].next == |source|
    decreases |source| - offset
  {
    var items := ReadAll(p, source, offset).value;
    if items[0].next < |source| {
      ItemsTile(p, source, items[0].next);
      var others := ReadAll(p, source, items[0].next).value;
      assert items == [items[0]] + others;
      forall i | 1 <= i < |items|
        ensures Read(p, source, items[i - 1].next) == Ok(items[i])
      {
        assert items[i] == others[i - 1];
      }
    }
  }

  /** One of the items that iOS reads from a payload has a padded length. */
  predicate SomePadded(source: seq<Byte>, offset: nat)
    requires |source| < INT_LIMIT
    decreases |source| - offset
  {
    && offset < |source|
    && (PaddedLength(source, offset)
        || (var item := Read(Swift, source, offset); item.Ok? && SomePadded(source, item.value.next)))
  }

  lemma {:induction false} ReadAllDiffersOnPaddingOnly(source: seq<Byte>, offset: nat)
    requires |source| < INT_LIMIT
    ensures ReadAll(Kotlin, source, offset).Ok? <==> ReadAll(Swift, source, offset).Ok? && !SomePadded(source, offset)
    ensures ReadAll(Kotlin, source, offset).Ok? ==> ReadAll(Kotlin, source, offset) == ReadAll(Swift, source, offset)
    decreases |source| - offset
  {
    if offset < |source| {
      PlatformsDifferOnPaddingOnly(source, offset);
      var item := Read(Swift, source, offset);
      if item.Ok? {
        ReadAllDiffersOnPaddingOnly(source, item.value.next);
      }
    }
  }

  /** Android decodes exactly what iOS decodes with no padded length, neither of the outer list nor of
      an item in it, and then to the same fields. */
  lemma DecodersDifferOnPaddingOnly(input: seq<Byte>)
    requires |input| < INT_LIMIT
    ensures Decode(Kotlin, input).Ok? <==>
              && Decode(Swift, input).Ok? && !PaddedLength(input, 1)
              && !SomePadded(Read(Swift, input, 1).value.bytes, 0)
    ensures Decode(Kotlin, input).Ok? ==> Decode(Kotlin, input) == Decode(Swift, input)
  {
    PlatformsDifferOnPaddingOnly(input, 1);
    var outer := Read(Swift, input, 1);
    if outer.Ok? {
      ReadAllDiffersOnPaddingOnly(outer.value.bytes, 0);
    }
  }

  lemma SwiftReadsHeader(r: seq<Byte>, source: seq<Byte>, start: nat)
    requires start <= |source| < INT_LIMIT && r == source[start..]
    requires Canonical(r) && HeadLength(r) + SizeAt(r) <= |r|
    ensures SwiftRead(source, start) == SwiftPayload(source, start, HeadLength(r), SizeAt(r), r[0] >= 0xc0)
    ensures !PaddedLength(source, start)
  {
    var h := HeadLength(r);
    if h > 1 {
      assert source[start + 1..start + h] == r[1..h];
      ShortLength(r[1..h]);
    }
  }

  lemma SwiftReadsEncoding(t: Item, source: seq<Byte>, start: nat)
    requires start <= |source| < INT_LIMIT && Encode(t) <= source[start..]
    ensures var r := SwiftRead(source, start);
            r.Ok? && r.value.bytes == Payload(t) && r.value.isList == t.List? && r.value.next == start + |Encode(t)|
    ensures !PaddedLength(source, start)
  {
    var r := source[start..];
    Shape(t, r);
    if r[0] >= 0x80 {
      SwiftReadsHeader(r, source, start);
      assert source[start + HeadLength(r)..start + HeadLength(r) + SizeAt(r)]
          == r[HeadLength(r)..HeadLength(r) + SizeAt(r)];
    }
  }

  /** Both platforms read back what the encoding of `Rlp` wrote, wherever it stands. */
  lemma ReadsEncoding(p: Platform, t: Item, source: seq<Byte>, start: nat)
    requires start <= |source| < INT_LIMIT && Encode(t) <= source[start..]
    ensures var r := Read(p, source, start);
            r.Ok? && r.value.bytes == Payload(t) && r.value.isList == t.List? && r.value.next == start + |Encode(t)|
  {
    SwiftReadsEncoding(t, source, start);
    PlatformsDifferOnPaddingOnly(source, start);
  }

  lemma ShortLength(bytes: seq<Byte>)
    requires bytes != [] && bytes[0] != 0 && Value(256, bytes) < INT_LIMIT
    ensures |bytes| <= 4
  {
    ValueBounds(256, bytes);
    MulMonotone(1, bytes[0], Pow(256, |bytes| - 1));
    assert Pow(256, 4) == 2 * INT_LIMIT;
    if |bytes| > 4 {
      PowMonotone(256, 4, |bytes| - 1);
    }
  }

  /** The items are those trees, as far as a reader sees them. */
  ghost predicate Shows(items: seq<RlpItem>, cs: seq<Item>) {
    |items| == |cs| && forall i :: 0 <= i < |cs| ==> ShowsOne(items[i], cs[i])
  }

  predicate ShowsOne(item: RlpItem, c: Item) {
    item.bytes == Payload(c) && item.isList == c.List?
  }

  lemma ShowsMore(item: RlpItem, others: seq<RlpItem>, cs: seq<Item>)
    requires cs != [] && ShowsOne(item, cs[0]) && Shows(others, cs[1..])
    ensures Shows([item] + others, cs)
  {
    forall i | 0 <= i < |cs|
      ensures ShowsOne(([item] + others)[i], cs[i])
    {
      if i > 0 {
        assert ShowsOne(others[i - 1], cs[1..][i - 1]);
      }
    }
  }

  lemma {:induction false} ReadsAllEncodings(p: Platform, cs: seq<Item>, source: seq<Byte>, offset: nat)
    requires offset <= |source| < INT_LIMIT && EncodeAll(cs) == source[offset..]
    ensures var r := ReadAll(p, source, offset); r.Ok? && Shows(r.value, cs)
  {
    if cs != [] {
      assert source[offset..] == Encode(cs[0]) + EncodeAll(cs[1..]);
      ReadsEncoding(p, cs[0], source, offset);
      var item := Read(p, source, offset).value;
      assert source[item.next..] == source[offset..][|Encode(cs[0])|..] == EncodeAll(cs[1..]);
      ReadsAllEncodings(p, cs[1..], source, item.next);
      ShowsMore(item, ReadAll(p, source, item.next).value, cs);
    }
  }

  function Unsigned(f: Eip1559Fields): Item {
    List([Str(f.chainId), Str(f.nonce), Str(f.maxPriorityFeePerGas), Str(f.maxFeePerGas),
          Str(f.gasLimit), Str(f.to), Str(f.value), Str(f.data), List([])])
  }

  lemma NineFields(items: seq<RlpItem>, f: Eip1559Fields)
    requires Shows(items, Unsigned(f).children) && |f.to| == 20
    ensures FieldsOf(items) == Ok(f)
  {
    var cs := Unsigned(f).children;
    assert forall i :: 0 <= i < 9 ==> ShowsOne(items[i], cs[i]);
  }

  /** EIP-1559: the type byte, then the unsigned transaction with an empty access list. Both platforms
      return the fields that were encoded. */
  lemma DecodesUnsignedTransaction(p: Platform, f: Eip1559Fields, input: seq<Byte>)
    requires |f.to| == 20
    requires input == [2] + Encode(Unsigned(f)) && |input| < INT_LIMIT
    ensures Decode(p, input) == Ok(f)
  {
    var t := Unsigned(f);
    assert input[1..] == Encode(t);
    ReadsEncoding(p, t, input, 1);
    var outer := Read(p, input, 1).value;
    assert outer.bytes[0..] == EncodeAll(t.children);
    ReadsAllEncodings(p, t.children, outer.bytes, 0);
    NineFields(ReadAll(p, outer.bytes, 0).value, f);
  }

  lemma ZeroInFront(n: nat)
    ensures Value(256, [0, n]) == n
  {
    var ds: seq<nat> := [0, n];
    assert ds[..1] == [0] && ds[..1][..0] == [];
    assert Value(256, ds[..1]) == 0;
  }

  /** Any transaction with a short list, written with a padded list length instead, is decoded by iOS to
      the same fields and refused by Android. */
  lemma OnlySwiftDecodesPadded(f: Eip1559Fields, input: seq<Byte>)
    requires |f.to| == 20 && |Payload(Unsigned(f))| < 256
    requires input == [2, 0xf9, 0, |Payload(Unsigned(f))|] + Payload(Unsigned(f))
    ensures Decode(Swift, input) == Ok(f) && !Decode(Kotlin, input).Ok?
  {
    var payload: seq<Byte> := Payload(Unsigned(f));
    var n := |payload|;
    assert input[2..4] == [0, n];
    ZeroInFront(n);
    assert SwiftLength(input, 2, 2) == Ok(n);
    assert |input| == 4 + n && input[4..4 + n] == payload;
    assert SwiftPayload(input, 1, 3, n, true) == Ok(RlpItem(payload, true, 4 + n));
    assert SwiftRead(input, 1) == Ok(RlpItem(payload, true, |input|));
    assert payload[0..] == payload;
    ReadsAllEncodings(Swift, Unsigned(f).children, payload, 0);
    NineFields(ReadAll(Swift, payload, 0).value, f);
    DecodersDifferOnPaddingOnly(input);
  }

  /** What both decoders make of an encoding: exactly the lists of nine fields, of which the first eight
      are strings, the recipient of twenty bytes, and the last is the empty list. */
  lemma DecodesExactly(p: Platform, t: Item, input: seq<Byte>)
    requires input == [2] + Encode(t) && |input| < INT_LIMIT
    ensures Decode(p, input).Ok? <==> t.List? && TransferFields(t.children)
    ensures Decode(p, input).Ok? ==>
              var cs := t.children;
              Decode(p, input) == Ok(Eip1559Fields(cs[0].data, cs[1].data, cs[2].data, cs[3].data,
                                                   cs[4].data, cs[5].data, cs[6].data, cs[7].data))
  {
    assert input[1..] == Encode(t);
    ReadsEncoding(p, t, input, 1);
    if t.List? {
      var outer := Read(p, input, 1).value;
      assert outer.bytes[0..] == EncodeAll(t.children);
      ReadsAllEncodings(p, t.children, outer.bytes, 0);
      ShownFields(ReadAll(p, outer.bytes, 0).value, t.children);
    }
  }

  ghost predicate TransferFields(cs: seq<Item>) {
    && |cs| == 9
    && (forall i :: 0 <= i < 8 ==> cs[i].Str?)
    && |cs[5].data| == 20
    && cs[8] == List([])
  }

  lemma ShownFields(items: seq<RlpItem>, cs: seq<Item>)
    requires Shows(items, cs)
    ensures FieldsOf(items).Ok? <==> TransferFields(cs)
    ensures TransferFields(cs) ==>
              FieldsOf(items) == Ok(Eip1559Fields(cs[0].data, cs[1].data, cs[2].data, cs[3].data,
                                                  cs[4].data, cs[5].data, cs[6].data, cs[7].data))
  {
    if |cs| == 9 {
      assert forall i :: 0 <= i < 9 ==> ShowsOne(items[i], cs[i]);
      EmptyPayload(cs[8]);
    }
  }

  lemma EmptyPayload(c: Item)
    ensures c.List? && Payload(c) == [] <==> c == List([])
  {
    if c.List? && c.children != [] {
      assert EncodeAll(c.children) == Encode(c.children[0]) + EncodeAll(c.children[1..]);
    }
  }

  /** Whatever is decoded, from an encoding or not, is the type byte and one framed list that ends with the
      input. */
  lemma DecodedIsOneList(p: Platform, input: seq<Byte>)
    requires |input| < INT_LIMIT && Decode(p, input).Ok?
    ensures |input| > 1 && input[0] == 2
    ensures exists payload :: Framed(p, input[1..], payload, true)
  {
    var outer := Read(p, input, 1).value;
    ReadIsFramed(p, input, 1, outer);
    assert input[1..outer.next] == input[1..];
  }

  const NO_FIELDS: Eip1559Fields := Eip1559Fields([], [], [], [], [], seq(20, _ => 0), [], [])

  /** Such an input exists. */
  lemma DecodersDiffer() returns (input: seq<Byte>)
    ensures |input| < INT_LIMIT
    ensures Decode(Swift, input) == Ok(NO_FIELDS) && !Decode(Kotlin, input).Ok?
  {
    var to: seq<Byte> := [0x94] + NO_FIELDS.to;
    var tail: seq<Byte> := to + ([0x80, 0x80] + [0xc0]);
    var payload: seq<Byte> := [0x80, 0x80, 0x80, 0x80, 0x80] + tail;
    assert Encode(Str(NO_FIELDS.to)) == to;
    assert EncodeAll([List([])]) == [0xc0];
    EmptyStrings(2, [List([])]);
    var last := [Str([]), Str([]), List([])];
    assert last == seq(2, _ => Str([])) + [List([])];
    assert ([Str(NO_FIELDS.to)] + last)[1..] == last;
    EmptyStrings(5, [Str(NO_FIELDS.to)] + last);
    assert Unsigned(NO_FIELDS).children == seq(5, _ => Str([])) + ([Str(NO_FIELDS.to)] + last);
    input := [2, 0xf9, 0, |payload|] + payload;
    OnlySwiftDecodesPadded(NO_FIELDS, input);
  }

  lemma {:induction false} EmptyStrings(n: nat, cs: seq<Item>)
    ensures EncodeAll(seq(n, _ => Str([])) + cs) == seq(n, _ => 0x80) + EncodeAll(cs)
  {
    var all := seq(n, _ => Str([])) + cs;
    if n == 0 {
      assert all == cs;
    } else {
      assert all[1..] == seq(n - 1, _ => Str([])) + cs;
      assert Encode(all[0]) == [0x80];
      EmptyStrings(n - 1, cs);
    }
  }

  // ----- protobuf framing of a signed TRON transaction -----

  function Varint(n: nat): (bytes: seq<Byte>)
    ensures bytes != []
  {
    if n < 128 then [n] else [n % 128 + 128] + Varint(n / 128)
  }

  /** A length-delimited field: tag byte, length, payload. */
  function Field(tag: Byte, payload: seq<Byte>): seq<Byte> {
    [tag] + (Varint(|payload|) + payload)
  }

  function SignedTransaction(rawData: seq<Byte>, signature: seq<Byte>): seq<Byte> {
    Field(0x0a, rawData) + Field(0x12, signature)
  }

  method TronSignedTransaction(rawData: seq<Byte>, signature: seq<Byte>) returns (out: seq<Byte>)
    ensures out == SignedTransaction(rawData, signature)
  {
    out := [0x0a];
    var size := ProtobufVarintKotlin(|rawData|);
    out := out + size;
    out := out + rawData;
    assert out == Field(0x0a, rawData);
    out := out + [0x12];
    size := ProtobufVarintKotlin(|signature|);
    out := out + size;
    out := out + signature;
    assert out == Field(0x0a, rawData) + Field(0x12, signature);
  }

  /** Android: mask, unsigned shift, and stop when nothing remains. */
  method ProtobufVarintKotlin(value: nat) returns (out: seq<Byte>)
    ensures out == Varint(value)
  {
    var remaining: nat := value;
    out := [];
    while true
      invariant Varint(value) == out + Varint(remaining)
      decreases remaining
    {
      var group := remaining % 128;
      remaining := remaining / 128;
      out := out + [if remaining != 0 then group + 128 else group];
      if remaining == 0 {
        return;
      }
    }
  }

  function Unwritten(remaining: nat): seq<Byte> {
    if remaining == 0 then [] else Varint(remaining)
  }

  /** iOS: the same, as repeat-while. */
  method ProtobufVarintSwift(value: nat) returns (out: seq<Byte>)
    ensures out == Varint(value)
  {
    var remaining: nat := value;
    var group: Byte := remaining % 128;
    remaining := remaining / 128;
    out := [if remaining != 0 then group + 128 else group];
    while remaining != 0
      invariant Varint(value) == out + Unwritten(remaining)
      decreases remaining
    {
      group := remaining % 128;
      remaining := remaining / 128;
      var byte: Byte := if remaining != 0 then group + 128 else group;
      out := out + [byte];
    }
  }

  /** Protocol Buffers, "Base 128 Varints": the value and what follows it. */
  function ParseVarint(bytes: seq<Byte>): (r: Result<(nat, seq<Byte>)>)
    ensures r.Ok? ==> |r.value.1| < |bytes|
  {
    if bytes == [] then Invalid
    else if bytes[0] < 128 then Ok((bytes[0], bytes[1..]))
    else
      var (high, rest) :- ParseVarint(bytes[1..]);
      Ok((bytes[0] - 128 + 128 * high, rest))
  }

  /** Protocol Buffers, "Message Structure": a message of length-delimited fields, as pairs of field
      number and payload. */
  function ParseMessage(bytes: seq<Byte>): Result<seq<(nat, seq<Byte>)>>
    decreases |bytes|
  {
    if bytes == [] then Ok([])
    else
      var (tag, afterTag) :- ParseVarint(bytes);
      var (length, rest) :- ParseVarint(afterTag);
      if tag % 8 != 2 || length > |rest| then Invalid
      else
        var others :- ParseMessage(rest[length..]);
        Ok([(tag / 8, rest[..length])] + others)
  }

  lemma {:induction false} VarintReadsBack(n: nat, rest: seq<Byte>)
    ensures ParseVarint(Varint(n) + rest) == Ok((n, rest))
  {
    var all := Varint(n) + rest;
    if n < 128 {
      assert all[1..] == rest;
    } else {
      VarintReadsBack(n / 128, rest);
      assert all[1..] == Varint(n / 128) + rest;
    }
  }

  /** The shortest varint: its last byte carries something, unless the number is zero. */
  lemma {:induction false} VarintIsMinimal(n: nat)
    ensures var bytes := Varint(n);
            && bytes[|bytes| - 1] < 128
            && (|bytes| > 1 ==> bytes[|bytes| - 1] != 0)
            && forall i :: 0 <= i < |bytes| - 1 ==> bytes[i] >= 128
  {
    if n >= 128 {
      VarintIsMinimal(n / 128);
      var rest := Varint(n / 128);
      assert Varint(n) == [n % 128 + 128] + rest;
    }
  }

  lemma FieldReadsBack(tag: Byte, payload: seq<Byte>, rest: seq<Byte>)
    requires tag < 128 && tag % 8 == 2 && ParseMessage(rest).Ok?
    ensures ParseMessage(Field(tag, payload) + rest) == Ok([(tag / 8, payload)] + ParseMessage(rest).value)
  {
    var after: seq<Byte> := Varint(|payload|) + (payload + rest);
    VarintReadsBack(|payload|, payload + rest);
    assert Field(tag, payload) + rest == [tag] + after;
    FirstField([tag] + after, tag, payload, rest);
  }

  lemma FirstField(bytes: seq<Byte>, tag: Byte, payload: seq<Byte>, rest: seq<Byte>)
    requires bytes != [] && bytes[0] == tag < 128 && tag % 8 == 2
    requires ParseVarint(bytes[1..]) == Ok((|payload|, payload + rest))
    requires ParseMessage(rest).Ok?
    ensures ParseMessage(bytes) == Ok([(tag / 8, payload)] + ParseMessage(rest).value)
  {
  }

  /** `Transaction { raw_data = 1; repeated signature = 2; }` parses back to exactly both parts,
      whatever bytes they hold. */
  lemma SignedTransactionReadsBack(rawData: seq<Byte>, signature: seq<Byte>)
    ensures ParseMessage(SignedTransaction(rawData, signature)) == Ok([(1, rawData), (2, signature)])
  {
    FieldReadsBack(0x12, signature, []);
    assert Field(0x12, signature) + [] == Field(0x12, signature);
    FieldReadsBack(0x0a, rawData, Field(0x12, signature));
    assert ParseMessage(Field(0x12, signature)).value == [(2, signature)];
    assert [(1, rawData)] + [(2, signature)] == [(1, rawData), (2, signature)];
  }
}
