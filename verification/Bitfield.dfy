/** The packed bit vector that holds a variable assignment: eight bits to a byte, and one
    write that stays pending until the next reference is handed out. */
module Bitfields {

  function ToByteLength(l: nat): nat {
    (l + 7) / 8
  }

  /** `1 << k`, for the eight bits of a byte. */
  function Mask(k: nat): bv8 {
    match k
    case 0 => 1
    case 1 => 2
    case 2 => 4
    case 3 => 8
    case 4 => 16
    case 5 => 32
    case 6 => 64
    case _ => 128
  }

  /** Bit `k` of `b`. */
  predicate Bit(b: bv8, k: nat) {
    b & Mask(k) != 0
  }

  /** It is the bit that `1 & (b >> k)` reads, and the mask is `1 << k`. */
  lemma BitIsShift(b: bv8, k: nat)
    requires k < 8
    ensures Mask(k) == 1 << k
    ensures Bit(b, k) <==> 1 & (b >> k) == 1
  {
  }

  function WithBit(b: bv8, k: nat, value: bool): bv8 {
    if value then b | Mask(k) else b & !Mask(k)
  }

  /** A masked write changes its own bit and none of the seven that share the byte. */
  lemma MaskedWrite(b: bv8, k: nat, value: bool, j: nat)
    requires k < 8 && j < 8
    ensures Bit(WithBit(b, k, value), j) == if j == k then value else Bit(b, j)
  {
  }

  /** The bit stored for index `i`: bit `i & 7` of byte `i >> 3`. */
  predicate Stored(bytes: seq<bv8>, i: nat) {
    i / 8 < |bytes| && Bit(bytes[i / 8], i % 8)
  }

  /** Writing one bit of one byte changes what is stored for one index. */
  lemma {:induction false} PackedWrite(bytes: seq<bv8>, index: nat, value: bool, j: nat)
    requires index / 8 < |bytes|
    ensures Stored(bytes[index / 8 := WithBit(bytes[index / 8], index % 8, value)], j)
         == if j == index then value else Stored(bytes, j)
  {
    if j / 8 == index / 8 {
      MaskedWrite(bytes[index / 8], index % 8, value, j % 8);
      assert j % 8 == index % 8 ==> j == index;
    }
  }

  /** `contents` is the sequence of booleans the bitfield stands for. */
  class Bitfield {
    ghost var contents: seq<bool>
    const length: nat
    var lastModIndex: nat
    var lastModValue: bool
    const bytes: array<bv8>

    /** The pending write, if there is one, wins over the stored bit. */
    ghost predicate Valid()
      reads this, bytes
    {
      && bytes.Length == ToByteLength(length) && lastModIndex <= length
      && |contents| == length
      && (lastModIndex < length ==> contents[lastModIndex] == lastModValue)
      && forall i: nat {:trigger Stored(bytes[..], i)} | i < length && i != lastModIndex ::
           contents[i] == Stored(bytes[..], i)
    }

    /** Fresh storage: the bits are whatever the allocation left there. */
    constructor (n: nat)
      ensures Valid() && length == n && fresh(bytes)
    {
      length := n;
      lastModIndex := n;
      lastModValue := false;
      bytes := new bv8[ToByteLength(n)];
      new;
      contents := seq(n, i requires 0 <= i < n reads bytes => Stored(bytes[..], i));
    }

    /** The copy takes over the pending write together with the bytes. */
    constructor Copy(other: Bitfield)
      requires other.Valid()
      ensures Valid() && fresh(bytes)
      ensures length == other.length && contents == other.contents
    {
      length := other.length;
      lastModIndex := other.lastModIndex;
      lastModValue := other.lastModValue;
      bytes := new bv8[ToByteLength(other.length)];
      contents := other.contents;
      new;
      for i := 0 to ToByteLength(length)
        modifies bytes
        invariant bytes[..i] == other.bytes[..i]
      {
        bytes[i] := other.bytes[i];
      }
      assert bytes[..] == other.bytes[..];
    }

    method Set(index: nat, value: bool)
      requires index < length && bytes.Length == ToByteLength(length)
      modifies bytes
      ensures forall j: nat {:trigger Stored(bytes[..], j)} ::
        Stored(bytes[..], j) == if j == index then value else old(Stored(bytes[..], j))
    {
      bytes[index / 8] := WithBit(bytes[index / 8], index % 8, value);
      forall j: nat
        ensures Stored(bytes[..], j) == if j == index then value else old(Stored(bytes[..], j))
      {
        assert bytes[..] == old(bytes[..])[index / 8 := WithBit(old(bytes[..])[index / 8], index % 8, value)];
        PackedWrite(old(bytes[..]), index, value, j);
      }
    }

    /** Stores the pending write, if there is one. No observable bit changes. */
    method Update()
      requires Valid()
      modifies this, bytes
      ensures Valid() && lastModIndex == length
      ensures contents == old(contents)
    {
      if lastModIndex < length {
        Set(lastModIndex, lastModValue);
        lastModIndex := length;
      }
    }

    /** The non-const subscript: it settles the pending write and makes the one-bit buffer
        stand for `index`. */
    method Ref(index: nat) returns (value: bool)
      requires Valid() && index < length
      modifies this, bytes
      ensures Valid() && lastModIndex == index && lastModValue == value
      ensures contents == old(contents) && value == contents[index]
    {
      Update();
      assert contents[index] == Stored(bytes[..], index);
      lastModIndex := index;
      lastModValue := Bit(bytes[index / 8], index % 8);
      value := lastModValue;
    }

    /** `field[index] = value` through the non-const subscript. */
    method Assign(index: nat, value: bool)
      requires Valid() && index < length
      modifies this, bytes
      ensures Valid() && contents == old(contents)[index := value]
    {
      var _ := Ref(index);
      lastModValue := value;
      contents := contents[index := value];
    }

    /** The const subscript: it has to look at the pending write, since it may not store it. */
    method At(index: nat) returns (value: bool)
      requires Valid() && index < length
      ensures value == contents[index]
    {
      if index == lastModIndex {
        value := lastModValue;
      } else {
        assert contents[index] == Stored(bytes[..], index);
        value := Bit(bytes[index / 8], index % 8);
      }
    }
  }
}
