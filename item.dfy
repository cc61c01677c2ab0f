/** `Ini::Item`: a value tagged Int64, Float or Str.

    Two views are given. `Item` is the value an item holds, the thing the
    document's maps store and the parser and writer work on. `ItemObject`
    is the C++ object itself, a type tag beside one payload slot per tag,
    whose `setData` overloads and copy assignment update it in place. */
module IniItem {

  /** `int64_t`. */
  newtype int64 = x: int | -0x8000_0000_0000_0000 <= x <= 0x7FFF_FFFF_FFFF_FFFF

  const Int64Min: int := -0x8000_0000_0000_0000
  const Int64Max: int := 0x7FFF_FFFF_FFFF_FFFF

  /** `ItemType`, in the order the enumeration declares it. */
  datatype ItemType = Int64 | Float | Str

  /** The value of an item. A double is represented by the literal text
      it was read from: reading and printing doubles are not modelled. */
  datatype Item =
    | Int64Item(int64Data: int64)
    | FloatItem(floatData: string)
    | StrItem(strData: string)
  {
    /** `type()`: the tag that goes with the payload. */
    function Type(): (t: ItemType)
      ensures t == Int64 <==> this.Int64Item?
      ensures t == Float <==> this.FloatItem?
      ensures t == Str <==> this.StrItem?
    {
      match this
      case Int64Item(_) => Int64
      case FloatItem(_) => Float
      case StrItem(_) => Str
    }
  }

  /** The text a default-constructed item holds. */
  const NotFoundText: string := "-- not found data, the ini object has inserted it automatically --"

  /** The value of a default-constructed item, which a lookup of a missing
      key inserts: a Str holding the fixed sentinel text. */
  function DefaultItem(): (r: Item)
    ensures r.Type() == Str && r.strData == NotFoundText
  {
    StrItem(NotFoundText)
  }

  /** The C++ object: a type tag and the payload slots of the union. Only
      the slot the tag selects is meaningful; the others keep whatever they
      last held. */
  class ItemObject {
    var dataType: ItemType
    var int64Data: int64
    var floatData: string
    var strData: string

    /** The value the object holds: the payload its tag selects. */
    function Value(): (r: Item)
      reads this
      ensures r.Type() == dataType
    {
      match dataType
      case Int64 => Int64Item(int64Data)
      case Float => FloatItem(floatData)
      case Str => StrItem(strData)
    }

    /** `type()`. */
    function Type(): (t: ItemType)
      reads this
      ensures t == Value().Type()
    {
      dataType
    }

    /** `asInt64()`: reads the Int64 slot; there is no check of the tag, so
        the caller must know the tag is Int64. */
    function AsInt64(): (v: int64)
      reads this
      requires dataType == Int64
      ensures Value() == Int64Item(v)
    {
      int64Data
    }

    /** `asFloat()`, under the same obligation for Float. */
    function AsFloat(): (v: string)
      reads this
      requires dataType == Float
      ensures Value() == FloatItem(v)
    {
      floatData
    }

    /** `asStr()`, under the same obligation for Str. */
    function AsStr(): (v: string)
      reads this
      requires dataType == Str
      ensures Value() == StrItem(v)
    {
      strData
    }

    /** `setData(int64_t)`: fills the Int64 slot and sets the tag. */
    method SetInt64(v: int64)
      modifies this
      ensures dataType == Int64 && int64Data == v
      ensures floatData == old(floatData) && strData == old(strData)
      ensures Value() == Int64Item(v)
    {
      int64Data := v;
      dataType := Int64;
    }

    /** `setData(double)`. */
    method SetFloat(v: string)
      modifies this
      ensures dataType == Float && floatData == v
      ensures int64Data == old(int64Data) && strData == old(strData)
      ensures Value() == FloatItem(v)
    {
      floatData := v;
      dataType := Float;
    }

    /** `setData(const std::string&)`. */
    method SetStr(v: string)
      modifies this
      ensures dataType == Str && strData == v
      ensures int64Data == old(int64Data) && floatData == old(floatData)
      ensures Value() == StrItem(v)
    {
      strData := v;
      dataType := Str;
    }

    /** `explicit Item(int64_t)`. */
    constructor FromInt64(v: int64)
      ensures Value() == Int64Item(v)
    {
      new;
      SetInt64(v);
    }

    /** `explicit Item(double)`. */
    constructor FromFloat(v: string)
      ensures Value() == FloatItem(v)
    {
      new;
      SetFloat(v);
    }

    /** `explicit Item(const std::string&)`. */
    constructor FromStr(v: string)
      ensures Value() == StrItem(v)
    {
      new;
      SetStr(v);
    }

    /** `Item()`: the sentinel Str. */
    constructor ()
      ensures Value() == DefaultItem()
    {
      dataType := Str;
      new;
      SetStr(NotFoundText);
    }

    /** Copy assignment: takes the tag and the payload of `o` through the
        setter for `o`'s tag. It destroys its own payload before reading
        `o`'s, so assigning an object to itself is undefined behaviour in
        the source; the model asks for two distinct objects. */
    method Assign(o: ItemObject)
      requires o != this
      modifies this
      ensures Value() == o.Value()
      ensures o.Value() == old(o.Value())
    {
      match o.dataType
      case Int64 => SetInt64(o.AsInt64());
      case Float => SetFloat(o.AsFloat());
      case Str => SetStr(o.AsStr());
    }

    /** Copy constructor: a fresh object assigned from `o`. */
    constructor Copy(o: ItemObject)
      ensures Value() == o.Value()
    {
      new;
      Assign(o);
    }
  }
}
