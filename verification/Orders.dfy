/** `common/order.c`: the order an object edited in place, its byte image, and the
    insertion-ordered map that a run of `orderAdd` calls amounts to. */
module Orders {
  import opened Bytes

  const ORDER_MAX_SIZE: nat := 16

  /** The longest address that fits the database's query buffer whatever the total and the time. */
  const ADDRESS_MAX: nat := 941

  datatype Entry = Entry(productId: int32, quantity: int, price: float4)

  /** What an order object holds. */
  datatype OrderData = OrderData(address: Option<seq<byte>>, entries: seq<Entry>)

  predicate CString(s: seq<byte>) {
    forall k :: 0 <= k < |s| ==> s[k] != 0
  }

  function AddressBytes(address: Option<seq<byte>>): seq<byte> {
    match address
    case None => []
    case Some(text) => text + [0]
  }

  function OrderSize(o: OrderData): nat {
    8 + |AddressBytes(o.address)| + 4 + 12 * |o.entries|
  }

  predicate FitsInt(x: int) {
    -0x8000_0000 <= x < 0x8000_0000
  }

  /** An order a C process can hold: the array has sixteen slots, addresses are C strings,
      quantities are ints, and the `int offset` of the serializer reaches the end. */
  predicate Storable(o: OrderData) {
    && |o.entries| <= ORDER_MAX_SIZE
    && (o.address.Some? ==> CString(o.address.value))
    && (forall k :: 0 <= k < |o.entries| ==> FitsInt(o.entries[k].quantity))
    && OrderSize(o) <= INT_MAX
  }

  // ---------------------------------------------------------------- byte image

  function EntryBytes(e: Entry): (b: seq<byte>)
    requires FitsInt(e.quantity)
    ensures |b| == 12
  {
    IntBytes(e.productId) + IntBytes(e.quantity) + e.price
  }

  function EntriesBytes(es: seq<Entry>): (b: seq<byte>)
    requires forall k :: 0 <= k < |es| ==> FitsInt(es[k].quantity)
    ensures |b| == 12 * |es|
  {
    if es == [] then [] else EntriesBytes(es[..|es| - 1]) + EntryBytes(es[|es| - 1])
  }

  function OrderBytes(o: OrderData): (b: seq<byte>)
    requires Storable(o)
    ensures |b| == OrderSize(o)
  {
    var address := AddressBytes(o.address);
    SizeBytes(|address|) + address + IntBytes(|o.entries|) + EntriesBytes(o.entries)
  }

  function EntryAt(b: seq<byte>): (e: Entry)
    requires |b| == 12
    ensures FitsInt(e.quantity)
  {
    Entry(IntAt(b[..4]), IntAt(b[4..8]), b[8..])
  }

  function EntriesAt(b: seq<byte>, n: nat): (es: seq<Entry>)
    requires |b| == 12 * n
    ensures |es| == n
    ensures forall k :: 0 <= k < n ==> FitsInt(es[k].quantity)
  {
    if n == 0 then [] else EntriesAt(b[..12 * (n - 1)], n - 1) + [EntryAt(b[12 * (n - 1)..])]
  }

  function AddressAt(b: seq<byte>): Option<Option<seq<byte>>> {
    if b == [] then Some(None)
    else if b[|b| - 1] == 0 && CString(b[..|b| - 1]) then Some(Some(b[..|b| - 1]))
    else None
  }

  /** The order a buffer holds, or None where the buffer is not the image of one. */
  function ParseOrder(b: seq<byte>): Option<OrderData> {
    if !(12 <= |b| <= INT_MAX) then None else
    var len := SizeAt(b[..8]);
    if |b| < 12 + len || AddressAt(b[8..8 + len]).None? then None else
    var n := IntAt(b[8 + len..12 + len]);
    if !(0 <= n <= ORDER_MAX_SIZE && |b| == 12 + len + 12 * n) then None else
    Some(OrderData(AddressAt(b[8..8 + len]).value, EntriesAt(b[12 + len..], n)))
  }

  lemma EntryRoundTrip(e: Entry)
    requires FitsInt(e.quantity)
    ensures EntryAt(EntryBytes(e)) == e
  {
    hide IntBytes, IntAt;
    IntRoundTrip(e.productId);
    IntRoundTrip(e.quantity);
    var b := EntryBytes(e);
    assert b[..4] == IntBytes(e.productId) && b[4..8] == IntBytes(e.quantity) && b[8..] == e.price;
  }

  lemma EntryImage(b: seq<byte>)
    requires |b| == 12
    ensures EntryBytes(EntryAt(b)) == b
  {
    hide IntBytes, IntAt;
    IntImage(b[..4]);
    IntImage(b[4..8]);
    assert b == b[..4] + b[4..8] + b[8..];
  }

  lemma {:induction false} EntriesRoundTrip(es: seq<Entry>)
    requires forall k :: 0 <= k < |es| ==> FitsInt(es[k].quantity)
    ensures EntriesAt(EntriesBytes(es), |es|) == es
  {
    hide EntryBytes, EntryAt, EntriesAt;
    if es == [] {
      NoEntries();
    } else {
      var n := |es| - 1;
      EntriesRoundTrip(es[..n]);
      EntryRoundTrip(es[n]);
      LastEntry(EntriesBytes(es[..n]), EntryBytes(es[n]), n);
      assert es == es[..n] + [es[n]];
    }
  }

  lemma NoEntries()
    ensures EntriesAt([], 0) == []
  {
  }

  lemma LastEntry(head: seq<byte>, last: seq<byte>, n: nat)
    requires |head| == 12 * n && |last| == 12
    ensures EntriesAt(head + last, n + 1) == EntriesAt(head, n) + [EntryAt(last)]
  {
    hide EntryAt;
    assert (head + last)[..12 * n] == head && (head + last)[12 * n..] == last;
  }

  lemma {:induction false} EntriesImage(b: seq<byte>, n: nat)
    requires |b| == 12 * n
    ensures EntriesBytes(EntriesAt(b, n)) == b
  {
    hide EntryBytes, EntryAt;
    if n != 0 {
      EntriesImage(b[..12 * (n - 1)], n - 1);
      EntryImage(b[12 * (n - 1)..]);
      var es := EntriesAt(b, n);
      assert es[..n - 1] == EntriesAt(b[..12 * (n - 1)], n - 1);
      assert b == b[..12 * (n - 1)] + b[12 * (n - 1)..];
    }
  }

  /** A NULL address has the empty image, an empty one a single NUL: they stay distinct. */
  lemma AddressRoundTrip(address: Option<seq<byte>>)
    requires address.Some? ==> CString(address.value)
    ensures AddressAt(AddressBytes(address)) == Some(address)
  {
  }

  /** Unserializing undoes serializing, for every order. */
  lemma OrderRoundTrip(o: OrderData)
    requires Storable(o)
    ensures ParseOrder(OrderBytes(o)) == Some(o)
  {
    hide SizeBytes, SizeAt, IntBytes, IntAt, EntriesBytes, EntriesAt, AddressAt;
    var b := OrderBytes(o);
    var address := AddressBytes(o.address);
    var len := |address|;
    FourSlices(SizeBytes(len), address, IntBytes(|o.entries|), EntriesBytes(o.entries));
    assert SizeAt(b[..8]) == len by { SizeRoundTrip(len); }
    assert IntAt(b[8 + len..12 + len]) == |o.entries| by { IntRoundTrip(|o.entries|); }
    assert AddressAt(b[8..8 + len]) == Some(o.address) by { AddressRoundTrip(o.address); }
    assert EntriesAt(b[12 + len..], |o.entries|) == o.entries by { EntriesRoundTrip(o.entries); }
  }

  lemma FourSlices(p: seq<byte>, q: seq<byte>, r: seq<byte>, s: seq<byte>)
    ensures var b := p + q + r + s;
            && b[..|p|] == p
            && b[|p|..|p| + |q|] == q
            && b[|p| + |q|..|p| + |q| + |r|] == r
            && b[|p| + |q| + |r|..] == s
  {
  }

  lemma AddressImage(b: seq<byte>)
    requires AddressAt(b).Some?
    ensures AddressBytes(AddressAt(b).value) == b
    ensures AddressAt(b).value.Some? ==> CString(AddressAt(b).value.value)
  {
  }

  lemma Assembled(o: OrderData, head: seq<byte>, address: seq<byte>, count: seq<byte>, body: seq<byte>)
    requires Storable(o) && AddressBytes(o.address) == address
    requires SizeBytes(|address|) == head && IntBytes(|o.entries|) == count && EntriesBytes(o.entries) == body
    ensures OrderBytes(o) == head + address + count + body
  {
  }

  /** Serializing undoes unserializing: a buffer that parses is the image of what it parses to. */
  lemma OrderImage(b: seq<byte>)
    requires ParseOrder(b).Some?
    ensures Storable(ParseOrder(b).value)
    ensures OrderBytes(ParseOrder(b).value) == b
  {
    hide SizeBytes, SizeAt, IntBytes, IntAt, EntriesBytes, EntriesAt, AddressAt;
    var o := ParseOrder(b).value;
    var len := SizeAt(b[..8]);
    var n := IntAt(b[8 + len..12 + len]);
    AddressImage(b[8..8 + len]);
    assert Storable(o);
    assert SizeBytes(len) == b[..8] by { SizeImage(b[..8]); }
    assert IntBytes(n) == b[8 + len..12 + len] by { IntImage(b[8 + len..12 + len]); }
    assert EntriesBytes(o.entries) == b[12 + len..] by { EntriesImage(b[12 + len..], n); }
    Assembled(o, b[..8], b[8..8 + len], b[8 + len..12 + len], b[12 + len..]);
    FourParts(b, 8, 8 + len, 12 + len);
  }

  lemma FourParts(b: seq<byte>, i: nat, j: nat, k: nat)
    requires i <= j <= k <= |b|
    ensures b[..i] + b[i..j] + b[j..k] + b[k..] == b
  {
  }

  lemma {:induction false} EntryLies(es: seq<Entry>, k: nat)
    requires k < |es| && forall j :: 0 <= j < |es| ==> FitsInt(es[j].quantity)
    ensures HoldsBytes(EntriesBytes(es), 12 * k, EntryBytes(es[k]))
    decreases |es|
  {
    hide EntryBytes;
    var n := |es| - 1;
    if k < n {
      EntryLies(es[..n], k);
      assert EntriesBytes(es)[..12 * n] == EntriesBytes(es[..n]);
      assert EntriesBytes(es)[12 * k..12 * k + 12] == EntriesBytes(es)[..12 * n][12 * k..12 * k + 12];
    }
  }

  lemma EntryParts(b: seq<byte>, at: nat, e: Entry)
    requires FitsInt(e.quantity) && HoldsBytes(b, at, EntryBytes(e))
    ensures HoldsInt(b, at, e.productId) && HoldsInt(b, at + 4, e.quantity) && HoldsBytes(b, at + 8, e.price)
  {
    hide IntBytes, HoldsBytes, HoldsInt;
    var w := EntryBytes(e);
    PartsLie(IntBytes(e.productId), IntBytes(e.quantity), e.price, []);
    assert IntBytes(e.productId) + IntBytes(e.quantity) + e.price + [] == w;
    LiesWithin(b, at, w, 0, IntBytes(e.productId));
    LiesWithin(b, at, w, 4, IntBytes(e.quantity));
    LiesWithin(b, at, w, 8, e.price);
    IntLies(b, at, e.productId);
    IntLies(b, at + 4, e.quantity);
  }

  /** The image of an order, byte by byte: the length of its address, the address and its NUL, the
      number of entries, and of each entry its product, its quantity and its price. */
  lemma OrderLayout(o: OrderData)
    requires Storable(o)
    ensures var b, len := OrderBytes(o), if o.address.Some? then |o.address.value| + 1 else 0;
            && |b| == 12 + len + 12 * |o.entries|
            && HoldsSize(b, 0, len)
            && (o.address.Some? ==> HoldsBytes(b, 8, o.address.value) && b[8 + |o.address.value|] == 0)
            && HoldsInt(b, 8 + len, |o.entries|)
            && forall k :: 0 <= k < |o.entries| ==>
                 var e, at := o.entries[k], 12 + len + 12 * k;
                 HoldsInt(b, at, e.productId) && HoldsInt(b, at + 4, e.quantity) && HoldsBytes(b, at + 8, e.price)
  {
    hide SizeBytes, IntBytes, EntriesBytes, EntryBytes, HoldsInt, HoldsSize, HoldsBytes;
    var b, text, body := OrderBytes(o), AddressBytes(o.address), EntriesBytes(o.entries);
    var len := |text|;
    PartsLie(SizeBytes(len), text, IntBytes(|o.entries|), body);
    SizeLies(b, 0, len);
    IntLies(b, 8 + len, |o.entries|);
    AddressLies(b, o.address);
    forall k | 0 <= k < |o.entries|
      ensures var e, at := o.entries[k], 12 + len + 12 * k;
              HoldsInt(b, at, e.productId) && HoldsInt(b, at + 4, e.quantity) && HoldsBytes(b, at + 8, e.price)
    {
      EntryLies(o.entries, k);
      LiesWithin(b, 12 + len, body, 12 * k, EntryBytes(o.entries[k]));
      EntryParts(b, 12 + len + 12 * k, o.entries[k]);
    }
  }

  lemma AddressLies(b: seq<byte>, address: Option<seq<byte>>)
    requires HoldsBytes(b, 8, AddressBytes(address))
    ensures address.Some? ==> HoldsBytes(b, 8, address.value) && b[8 + |address.value|] == 0
  {
    if address.Some? {
      var text := AddressBytes(address);
      assert text[0..|address.value|] == address.value;
      LiesWithin(b, 8, text, 0, address.value);
      assert b[8..8 + |text|][|address.value|] == 0;
    }
  }

  // ------------------------------------------------------------ a run of adds

  function IndexOf(es: seq<Entry>, id: int32): (k: nat)
    ensures k <= |es|
    ensures k < |es| ==> es[k].productId == id
    ensures forall j :: 0 <= j < k ==> es[j].productId != id
  {
    if es == [] || es[0].productId == id then 0 else 1 + IndexOf(es[1..], id)
  }

  predicate CanAdd(es: seq<Entry>, id: int32) {
    IndexOf(es, id) < |es| || |es| < ORDER_MAX_SIZE
  }

  function WithAdded(es: seq<Entry>, id: int32, quantity: int, price: float4): seq<Entry> {
    var k := IndexOf(es, id);
    if k < |es| then es[k := es[k].(quantity := es[k].quantity + quantity)]
    else if |es| < ORDER_MAX_SIZE then es + [Entry(id, quantity, price)]
    else es
  }

  datatype AddCall = AddCall(id: int32, quantity: int, price: float4)

  /** The entries after a run of adds on a new order. */
  function AfterAdds(calls: seq<AddCall>): seq<Entry> {
    if calls == [] then [] else
    var c := calls[|calls| - 1];
    WithAdded(AfterAdds(calls[..|calls| - 1]), c.id, c.quantity, c.price)
  }

  /** The first sixteen different ids, in the order of their first call. */
  function AdmittedIds(calls: seq<AddCall>): seq<int32> {
    if calls == [] then [] else
    var ids, id := AdmittedIds(calls[..|calls| - 1]), calls[|calls| - 1].id;
    if id in ids || |ids| >= ORDER_MAX_SIZE then ids else ids + [id]
  }

  function Requested(calls: seq<AddCall>, id: int32): int {
    if calls == [] then 0 else
    var c := calls[|calls| - 1];
    Requested(calls[..|calls| - 1], id) + if c.id == id then c.quantity else 0
  }

  function FirstPrice(calls: seq<AddCall>, id: int32): Option<float4> {
    if calls == [] then None
    else if calls[0].id == id then Some(calls[0].price)
    else FirstPrice(calls[1..], id)
  }

  predicate DistinctIds(es: seq<Entry>) {
    forall j, k :: 0 <= j < k < |es| ==> es[j].productId != es[k].productId
  }

  lemma {:induction false} FirstPriceOfLonger(calls: seq<AddCall>, c: AddCall, id: int32)
    ensures FirstPrice(calls + [c], id)
         == if FirstPrice(calls, id).Some? then FirstPrice(calls, id)
            else if c.id == id then Some(c.price) else None
  {
    if calls != [] {
      FirstPriceOfLonger(calls[1..], c, id);
      assert (calls + [c])[1..] == calls[1..] + [c];
    } else {
      assert (calls + [c])[1..] == [];
    }
  }

  lemma {:induction false} UnadmittedIds(calls: seq<AddCall>, id: int32)
    requires |AdmittedIds(calls)| < ORDER_MAX_SIZE && id !in AdmittedIds(calls)
    ensures Requested(calls, id) == 0 && FirstPrice(calls, id) == None
  {
    if calls != [] {
      var n := |calls| - 1;
      UnadmittedIds(calls[..n], id);
      FirstPriceOfLonger(calls[..n], calls[n], id);
      assert calls == calls[..n] + [calls[n]];
    }
  }

  /** The entry a run leaves under an admitted id. */
  ghost predicate Describes(e: Entry, calls: seq<AddCall>) {
    e.quantity == Requested(calls, e.productId) && FirstPrice(calls, e.productId) == Some(e.price)
  }

  lemma DescribesLonger(e: Entry, calls: seq<AddCall>, c: AddCall)
    requires Describes(e, calls)
    ensures Describes(if e.productId == c.id then e.(quantity := e.quantity + c.quantity) else e, calls + [c])
  {
    FirstPriceOfLonger(calls, c, e.productId);
    assert (calls + [c])[..|calls|] == calls;
  }

  lemma DescribesNew(calls: seq<AddCall>, c: AddCall)
    requires |AdmittedIds(calls)| < ORDER_MAX_SIZE && c.id !in AdmittedIds(calls)
    ensures Describes(Entry(c.id, c.quantity, c.price), calls + [c])
  {
    UnadmittedIds(calls, c.id);
    FirstPriceOfLonger(calls, c, c.id);
    assert (calls + [c])[..|calls|] == calls;
  }

  lemma IndexOfAdmitted(es: seq<Entry>, ids: seq<int32>, id: int32)
    requires |es| == |ids| && forall k :: 0 <= k < |es| ==> es[k].productId == ids[k]
    ensures id in ids <==> IndexOf(es, id) < |es|
  {
  }

  lemma {:induction false} AdmittedInOrder(calls: seq<AddCall>)
    ensures |AfterAdds(calls)| == |AdmittedIds(calls)| <= ORDER_MAX_SIZE
    ensures forall k :: 0 <= k < |AfterAdds(calls)| ==> AfterAdds(calls)[k].productId == AdmittedIds(calls)[k]
  {
    hide IndexOf;
    if calls != [] {
      var n := |calls| - 1;
      AdmittedInOrder(calls[..n]);
      IndexOfAdmitted(AfterAdds(calls[..n]), AdmittedIds(calls[..n]), calls[n].id);
    }
  }

  lemma {:induction false} AddsStayDistinct(calls: seq<AddCall>)
    ensures DistinctIds(AfterAdds(calls))
  {
    if calls != [] {
      AddsStayDistinct(calls[..|calls| - 1]);
    }
  }

  lemma {:induction false} EntriesAreDescribed(calls: seq<AddCall>, k: nat)
    requires k < |AfterAdds(calls)|
    ensures Describes(AfterAdds(calls)[k], calls)
    decreases |calls|
  {
    hide Describes, IndexOf;
    var n := |calls| - 1;
    var before, c := calls[..n], calls[n];
    var es := AfterAdds(before);
    assert calls == before + [c];
    AddsStayDistinct(before);
    AdmittedInOrder(before);
    IndexOfAdmitted(es, AdmittedIds(before), c.id);
    if k < |es| {
      EntriesAreDescribed(before, k);
      DescribesLonger(es[k], before, c);
    } else {
      DescribesNew(before, c);
    }
  }

  /** A run of adds builds an insertion-ordered map: the ids admitted, each once and in order
      of arrival, with everything asked for under that id and the price of its first add. */
  lemma AddsBuildOrderedMap(calls: seq<AddCall>)
    ensures |AfterAdds(calls)| == |AdmittedIds(calls)| <= ORDER_MAX_SIZE
    ensures DistinctIds(AfterAdds(calls))
    ensures forall k :: 0 <= k < |AfterAdds(calls)| ==> AfterAdds(calls)[k].productId == AdmittedIds(calls)[k]
    ensures forall k :: 0 <= k < |AfterAdds(calls)| ==> Describes(AfterAdds(calls)[k], calls)
  {
    hide DistinctIds, AfterAdds, AdmittedIds, Describes;
    AdmittedInOrder(calls);
    AddsStayDistinct(calls);
    forall k | 0 <= k < |AfterAdds(calls)|
      ensures Describes(AfterAdds(calls)[k], calls)
    {
      EntriesAreDescribed(calls, k);
    }
  }

  /** An add is refused exactly when the id is new and sixteen ids are present; it then
      changes nothing, and it changes only its own line otherwise. */
  lemma RefusalIsFullAndNew(calls: seq<AddCall>, c: AddCall)
    ensures !CanAdd(AfterAdds(calls), c.id)
         <==> c.id !in AdmittedIds(calls) && |AdmittedIds(calls)| == ORDER_MAX_SIZE
    ensures !CanAdd(AfterAdds(calls), c.id) ==> AfterAdds(calls + [c]) == AfterAdds(calls)
    ensures forall k :: 0 <= k < |AfterAdds(calls)| && AfterAdds(calls)[k].productId != c.id ==>
              k < |AfterAdds(calls + [c])| && AfterAdds(calls + [c])[k] == AfterAdds(calls)[k]
  {
    AddsBuildOrderedMap(calls);
    IndexOfAdmitted(AfterAdds(calls), AdmittedIds(calls), c.id);
    assert (calls + [c])[..|calls|] == calls;
  }

  // ------------------------------------------------------------------ the object

  class Order {
    var address: Option<seq<byte>>
    var numEntries: nat
    const items: array<Entry>

    ghost predicate Valid()
      reads this, items
    {
      items.Length == ORDER_MAX_SIZE && numEntries <= ORDER_MAX_SIZE
    }

    ghost function Data(): OrderData
      requires Valid()
      reads this, items
    {
      OrderData(address, items[..numEntries])
    }

    constructor ()
      ensures Valid() && fresh(items)
      ensures Data() == OrderData(None, [])
    {
      address := None;
      numEntries := 0;
      items := new Entry[ORDER_MAX_SIZE](_ => Entry(0, 0, [0, 0, 0, 0]));
    }

    /** The entry, or None where the C function returns NULL. */
    function GetEntryNum(entryNum: int): (e: Option<Entry>)
      requires Valid()
      reads this, items
      ensures e.Some? <==> 0 <= entryNum < |Data().entries|
      ensures e.Some? ==> e.value == Data().entries[entryNum]
    {
      if entryNum < 0 || entryNum >= numEntries then None else Some(items[entryNum])
    }

    method SetQuantity(entryNum: nat, quantity: int)
      requires Valid() && entryNum < numEntries
      modifies items
      ensures Valid()
      ensures Data() == old(Data()).(entries := old(Data()).entries[entryNum :=
                          old(Data()).entries[entryNum].(quantity := quantity)])
    {
      items[entryNum] := items[entryNum].(quantity := quantity);
    }

    method SetAddress(newAddress: Option<seq<byte>>)
      requires Valid()
      modifies this`address
      ensures Valid() && Data() == old(Data()).(address := newAddress)
    {
      address := newAddress;
    }

    method Add(productId: int32, quantity: int, price: float4) returns (result: int)
      requires Valid()
      requires forall k :: 0 <= k < |Data().entries| && Data().entries[k].productId == productId
                 ==> FitsInt(Data().entries[k].quantity + quantity)
      modifies this`numEntries, items
      ensures Valid()
      ensures Data() == old(Data()).(entries := WithAdded(old(Data()).entries, productId, quantity, price))
      ensures result == if CanAdd(old(Data()).entries, productId) then 0 else -1
    {
      ghost var es := Data().entries;
      var i := 0;
      while i < numEntries && items[i].productId != productId
        invariant i <= numEntries
        invariant forall j :: 0 <= j < i ==> items[j].productId != productId
      {
        i := i + 1;
      }
      assert i == IndexOf(es, productId);
      if i < numEntries {
        items[i] := items[i].(quantity := items[i].quantity + quantity);
      } else if i < ORDER_MAX_SIZE {
        numEntries := numEntries + 1;
        items[i] := Entry(productId, quantity, price);
      } else {
        return -1;
      }
      return 0;
    }

    method Serialize() returns (dest: array<byte>)
      requires Valid() && Storable(Data())
      ensures fresh(dest)
      ensures dest[..] == OrderBytes(Data())
    {
      hide SizeBytes, IntBytes, EntriesBytes;
      var offset := 0;
      var text := AddressBytes(address);
      var addressLen := |text|;
      dest := new byte[8 + addressLen + 4 + 12 * numEntries];
      Store(dest, offset, SizeBytes(addressLen));
      offset := offset + 8;
      assert dest[..offset] == SizeBytes(addressLen);
      if addressLen > 0 {
        Store(dest, offset, text);
      }
      offset := offset + addressLen;
      assert dest[..offset] == SizeBytes(addressLen) + text;
      Store(dest, offset, IntBytes(numEntries));
      offset := offset + 4;
      offset := StoreEntries(dest, offset, items[..numEntries]);
      assert dest[..] == dest[..offset];
    }
  }

  method StoreEntries(dest: array<byte>, start: nat, es: seq<Entry>) returns (offset: nat)
    requires forall k :: 0 <= k < |es| ==> FitsInt(es[k].quantity)
    requires start + 12 * |es| <= dest.Length
    modifies dest
    ensures offset == start + 12 * |es|
    ensures dest[..offset] == old(dest[..start]) + EntriesBytes(es)
  {
    hide EntryBytes;
    offset := start;
    var i := 0;
    while i < |es|
      invariant i <= |es| && offset == start + 12 * i
      invariant dest[..offset] == old(dest[..start]) + EntriesBytes(es[..i])
    {
      assert es[..i + 1][..i] == es[..i];
      offset := StoreEntry(dest, offset, es[i]);
      i := i + 1;
    }
    assert es[..i] == es;
  }

  method StoreEntry(dest: array<byte>, start: nat, e: Entry) returns (offset: nat)
    requires FitsInt(e.quantity) && start + 12 <= dest.Length
    modifies dest
    ensures offset == start + 12
    ensures dest[..offset] == old(dest[..start]) + EntryBytes(e)
  {
    hide IntBytes;
    offset := start;
    Store(dest, offset, IntBytes(e.productId));
    offset := offset + 4;
    Store(dest, offset, IntBytes(e.quantity));
    offset := offset + 4;
    Store(dest, offset, e.price);
    offset := offset + 4;
  }

  method Unserialize(data: array<byte>) returns (o: Order)
    requires ParseOrder(data[..]).Some?
    ensures fresh(o) && fresh(o.items) && o.Valid()
    ensures o.Data() == ParseOrder(data[..]).value
  {
    hide SizeAt, IntAt, EntriesAt;
    o := new Order();
    var offset := 0;
    ghost var b := data[..];
    assert b[..8] == data[..8];
    var addressLen := SizeAt(data[offset..offset + 8]);
    assert b[8..8 + addressLen] == data[8..8 + addressLen];
    offset := offset + 8;
    if addressLen > 0 {
      assert data[8..8 + addressLen - 1] == b[8..8 + addressLen][..addressLen - 1];
      o.address := Some(data[offset..offset + addressLen - 1]);
    }
    offset := offset + addressLen;
    assert b[8 + addressLen..12 + addressLen] == data[8 + addressLen..12 + addressLen];
    o.numEntries := IntAt(data[offset..offset + 4]);
    offset := offset + 4;
    assert b[12 + addressLen..] == data[offset..];
    LoadEntries(data, offset, o);
  }

  method LoadEntries(data: array<byte>, start: nat, o: Order)
    requires o.Valid() && start + 12 * o.numEntries == data.Length
    modifies o.items
    ensures o.items[..o.numEntries] == EntriesAt(data[start..], o.numEntries)
  {
    hide IntAt;
    var offset := start;
    ghost var body := data[start..];
    EntriesIndexing(body, o.numEntries);
    var i := 0;
    while i < o.numEntries
      invariant i <= o.numEntries && offset == start + 12 * i
      invariant forall k :: 0 <= k < i ==> o.items[k] == EntryAt(body[12 * k..12 * k + 12])
    {
      assert data[offset..offset + 12] == body[12 * i..12 * i + 12];
      assert data[offset..offset + 12][..4] == data[offset..offset + 4];
      assert data[offset..offset + 12][4..8] == data[offset + 4..offset + 8];
      assert data[offset..offset + 12][8..] == data[offset + 8..offset + 12];
      var productId := IntAt(data[offset..offset + 4]);
      offset := offset + 4;
      var quantity := IntAt(data[offset..offset + 4]);
      offset := offset + 4;
      var price := data[offset..offset + 4];
      offset := offset + 4;
      o.items[i] := Entry(productId, quantity, price);
      i := i + 1;
    }
  }

  lemma {:induction false} EntriesIndexing(b: seq<byte>, n: nat)
    requires |b| == 12 * n
    ensures forall k :: 0 <= k < n ==> EntriesAt(b, n)[k] == EntryAt(b[12 * k..12 * k + 12])
  {
    if n != 0 {
      EntriesIndexing(b[..12 * (n - 1)], n - 1);
      forall k | 0 <= k < n
        ensures EntriesAt(b, n)[k] == EntryAt(b[12 * k..12 * k + 12])
      {
        if k < n - 1 {
          assert b[..12 * (n - 1)][12 * k..12 * k + 12] == b[12 * k..12 * k + 12];
        } else {
          assert b[12 * (n - 1)..] == b[12 * k..12 * k + 12];
        }
      }
    }
  }
}
