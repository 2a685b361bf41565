/** `common/product.c`: a catalogue product, its stock setter and its byte image. */
module Products {
  import opened Bytes
  import opened Orders

  datatype ProductData =
    ProductData(id: int32, name: seq<byte>, description: seq<byte>, price: float4, stock: int)

  function ProductSize(p: ProductData): nat {
    4 + (4 + |p.name| + 1) + (4 + |p.description| + 1) + 4 + 4
  }

  /** A product a C process can hold: both texts are C strings, the stock is an int and
      the `int offset` of the serializer reaches the end. */
  predicate Shippable(p: ProductData) {
    CString(p.name) && CString(p.description) && FitsInt(p.stock) && ProductSize(p) <= INT_MAX
  }

  /** A length-prefixed, NUL-terminated text. */
  function TextBytes(s: seq<byte>): (b: seq<byte>)
    requires |s| < INT_MAX
    ensures |b| == |s| + 5
  {
    IntBytes(|s| + 1) + s + [0]
  }

  function ProductBytes(p: ProductData): (b: seq<byte>)
    requires Shippable(p)
    ensures |b| == ProductSize(p)
  {
    IntBytes(p.id) + TextBytes(p.name) + TextBytes(p.description) + (p.price + IntBytes(p.stock))
  }

  /** The text at the front of a buffer, or None where there is none. */
  function TextAt(b: seq<byte>): (s: Option<seq<byte>>)
    ensures s.Some? ==> |s.value| + 5 <= |b| && CString(s.value)
  {
    if |b| < 4 then None else
    var n := IntAt(b[..4]);
    if 1 <= n <= |b| - 4 && b[4 + n - 1] == 0 && CString(b[4..4 + n - 1]) then Some(b[4..4 + n - 1]) else None
  }

  function ParseProduct(b: seq<byte>): Option<ProductData> {
    if !(4 <= |b| <= INT_MAX) || TextAt(b[4..]).None? then None else
    var name := TextAt(b[4..]).value;
    var k := 4 + |name| + 5;
    if TextAt(b[k..]).None? then None else
    var description := TextAt(b[k..]).value;
    var m := k + |description| + 5;
    if |b| != m + 8 then None else
    Some(ProductData(IntAt(b[..4]), name, description, b[m..m + 4], IntAt(b[m + 4..])))
  }

  lemma TextRoundTrip(s: seq<byte>, rest: seq<byte>)
    requires CString(s) && |s| < INT_MAX
    ensures TextAt(TextBytes(s) + rest) == Some(s)
  {
    hide IntBytes, IntAt;
    var b := TextBytes(s) + rest;
    IntRoundTrip(|s| + 1);
    assert b[..4] == IntBytes(|s| + 1);
    assert b[4..4 + |s|] == s;
  }

  lemma TextImage(b: seq<byte>)
    requires TextAt(b).Some?
    ensures |TextAt(b).value| < INT_MAX
    ensures TextBytes(TextAt(b).value) == b[..|TextAt(b).value| + 5]
  {
    hide IntBytes, IntAt;
    IntImage(b[..4]);
    var s := TextAt(b).value;
    assert b[..|s| + 5] == b[..4] + s + [0];
  }

  /** Unserializing undoes serializing, for every product. */
  lemma ProductRoundTrip(p: ProductData)
    requires Shippable(p)
    ensures ParseProduct(ProductBytes(p)) == Some(p)
  {
    hide IntBytes, IntAt, TextBytes, TextAt;
    var b := ProductBytes(p);
    var k := 4 + |p.name| + 5;
    var m := k + |p.description| + 5;
    FourSlices(IntBytes(p.id), TextBytes(p.name), TextBytes(p.description), p.price + IntBytes(p.stock));
    assert b[4..] == TextBytes(p.name) + b[k..];
    assert b[k..] == TextBytes(p.description) + b[m..];
    assert TextAt(b[4..]) == Some(p.name) by { TextRoundTrip(p.name, b[k..]); }
    assert TextAt(b[k..]) == Some(p.description) by { TextRoundTrip(p.description, b[m..]); }
    assert b[m..m + 4] == p.price && b[m + 4..] == IntBytes(p.stock);
    assert IntAt(b[..4]) == p.id by { IntRoundTrip(p.id); }
    assert IntAt(b[m + 4..]) == p.stock by { IntRoundTrip(p.stock); }
  }

  /** Serializing undoes unserializing: a relay that does both forwards the same bytes. */
  lemma ProductImage(b: seq<byte>)
    requires ParseProduct(b).Some?
    ensures Shippable(ParseProduct(b).value)
    ensures ProductBytes(ParseProduct(b).value) == b
  {
    hide IntBytes, IntAt, TextBytes, TextAt;
    var p := ParseProduct(b).value;
    var k := 4 + |p.name| + 5;
    var m := k + |p.description| + 5;
    assert TextBytes(p.name) == b[4..k] by { TextImage(b[4..]); assert b[4..][..k - 4] == b[4..k]; }
    assert TextBytes(p.description) == b[k..m] by { TextImage(b[k..]); assert b[k..][..m - k] == b[k..m]; }
    assert IntBytes(p.id) == b[..4] by { IntImage(b[..4]); }
    assert IntBytes(p.stock) == b[m + 4..] by { IntImage(b[m + 4..]); }
    assert b[m..] == p.price + IntBytes(p.stock);
    FourParts(b, 4, k, m);
  }

  /** The image of a product, byte by byte: its id, each text with its length before it and its NUL
      after it, its price and its stock. */
  lemma ProductLayout(p: ProductData)
    requires Shippable(p)
    ensures var b, k := ProductBytes(p), 9 + |p.name|;
            var m := k + 5 + |p.description|;
            && |b| == m + 8
            && HoldsInt(b, 0, p.id)
            && HoldsInt(b, 4, |p.name| + 1) && HoldsBytes(b, 8, p.name) && b[k - 1] == 0
            && HoldsInt(b, k, |p.description| + 1) && HoldsBytes(b, k + 4, p.description) && b[m - 1] == 0
            && HoldsBytes(b, m, p.price) && HoldsInt(b, m + 4, p.stock)
  {
    hide IntBytes, HoldsInt, TextBytes, HoldsBytes;
    var b, k := ProductBytes(p), 9 + |p.name|;
    var m := k + 5 + |p.description|;
    var last := p.price + IntBytes(p.stock);
    PartsLie(IntBytes(p.id), TextBytes(p.name), TextBytes(p.description), last);
    IntLies(b, 0, p.id);
    TextLies(b, 4, p.name);
    TextLies(b, k, p.description);
    PartsLie(p.price, IntBytes(p.stock), [], []);
    assert p.price + IntBytes(p.stock) + [] + [] == last;
    LiesWithin(b, m, last, 0, p.price);
    LiesWithin(b, m, last, 4, IntBytes(p.stock));
    IntLies(b, m + 4, p.stock);
  }

  lemma TextLies(b: seq<byte>, at: nat, s: seq<byte>)
    requires |s| < INT_MAX && HoldsBytes(b, at, TextBytes(s))
    ensures HoldsInt(b, at, |s| + 1) && HoldsBytes(b, at + 4, s) && at + 4 + |s| < |b| && b[at + 4 + |s|] == 0
  {
    hide IntBytes, HoldsInt, HoldsBytes;
    var w, n := TextBytes(s), IntBytes(|s| + 1);
    PartsLie(n, s, [0], []);
    assert n + s + [0] + [] == w;
    LiesWithin(b, at, w, 0, n);
    LiesWithin(b, at, w, 4, s);
    LiesWithin(b, at, w, 4 + |s|, [0]);
    ZeroLies(b, at + 4 + |s|);
    IntLies(b, at, |s| + 1);
  }

  lemma ZeroLies(b: seq<byte>, at: nat)
    requires HoldsBytes(b, at, [0])
    ensures at < |b| && b[at] == 0
  {
    assert b[at] == b[at..at + 1][0];
  }

  class Product {
    var id: int32
    var name: seq<byte>
    var description: seq<byte>
    var price: float4
    var stock: int

    ghost function Data(): ProductData
      reads this
    {
      ProductData(id, name, description, price, stock)
    }

    constructor (id: int32, name: seq<byte>, description: seq<byte>, price: float4, stock: int)
      ensures Data() == ProductData(id, name, description, price, stock)
    {
      this.id := id;
      this.name := name;
      this.description := description;
      this.price := price;
      this.stock := stock;
    }

    /** Refuses a negative stock and then changes nothing. */
    method SetStock(newStock: int) returns (done: bool)
      modifies this`stock
      ensures done <==> newStock >= 0
      ensures Data() == if done then old(Data()).(stock := newStock) else old(Data())
    {
      if newStock < 0 {
        return false;
      }
      stock := newStock;
      return true;
    }

    method Serialize() returns (dest: array<byte>)
      requires Shippable(Data())
      ensures fresh(dest)
      ensures dest[..] == ProductBytes(Data())
    {
      var totalLen := 4 + 4 + (|name| + 1) + 4 + (|description| + 1) + 4 + 4;
      dest := new byte[totalLen];
      StoreFields(dest, id, name, description, price, stock);
    }
  }

  method StoreFields(dest: array<byte>, id: int32, name: seq<byte>, description: seq<byte>, price: float4, stock: int)
    requires Shippable(ProductData(id, name, description, price, stock))
    requires dest.Length == ProductSize(ProductData(id, name, description, price, stock))
    modifies dest
    ensures dest[..] == ProductBytes(ProductData(id, name, description, price, stock))
  {
    hide IntBytes, TextBytes;
    var offset := 0;
    Store(dest, offset, IntBytes(id));
    offset := offset + 4;
    offset := StoreText(dest, offset, name);
    offset := StoreText(dest, offset, description);
    ghost var texts := dest[..offset];
    assert texts == IntBytes(id) + TextBytes(name) + TextBytes(description);
    Store(dest, offset, price);
    offset := offset + 4;
    Store(dest, offset, IntBytes(stock));
    assert dest[..] == dest[..offset + 4] == texts + (price + IntBytes(stock));
  }

  method StoreText(dest: array<byte>, start: nat, s: seq<byte>) returns (offset: nat)
    requires |s| < INT_MAX && start + |s| + 5 <= dest.Length
    modifies dest
    ensures offset == start + |s| + 5
    ensures dest[..offset] == old(dest[..start]) + TextBytes(s)
  {
    hide IntBytes;
    offset := start;
    Store(dest, offset, IntBytes(|s| + 1));
    offset := offset + 4;
    Store(dest, offset, s + [0]);
    offset := offset + |s| + 1;
  }

  /** Reads a length and a text with its NUL. */
  method LoadText(data: array<byte>, start: nat) returns (text: seq<byte>, offset: nat)
    requires start <= data.Length && TextAt(data[start..]).Some?
    ensures text == TextAt(data[start..]).value && offset == start + |text| + 5
  {
    hide IntAt;
    ghost var b := data[start..];
    offset := start;
    assert b[..4] == data[start..start + 4];
    var len: int := IntAt(data[offset..offset + 4]);
    offset := offset + 4;
    assert b[4..4 + len - 1] == data[offset..offset + len - 1];
    text := data[offset..offset + len - 1];
    offset := offset + len;
  }

  method Unserialize(data: array<byte>) returns (p: Product)
    requires ParseProduct(data[..]).Some?
    ensures fresh(p)
    ensures p.Data() == ParseProduct(data[..]).value
  {
    hide IntAt, TextAt;
    ghost var b := data[..];
    assert b[4..] == data[4..] && b[..4] == data[..4];
    var offset := 0;
    var id := IntAt(data[offset..offset + 4]);
    offset := offset + 4;
    var name, description;
    name, offset := LoadText(data, offset);
    assert b[offset..] == data[offset..];
    description, offset := LoadText(data, offset);
    assert b[offset..offset + 4] == data[offset..offset + 4];
    var price := data[offset..offset + 4];
    offset := offset + 4;
    assert b[offset..] == data[offset..offset + 4];
    var stock := IntAt(data[offset..offset + 4]);
    p := new Product(id, name, description, price, stock);
  }
}
