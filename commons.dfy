/** `Array` of commons.py: a fixed-length store over a Python list. Reads at or past the length
    give None and writes there are dropped; negative keys index from the end, as Python lists do.
    The element conversion hook of the base class is the identity. */
module Commons {
  import opened Base

  class Array<V> {
    const size: nat
    const list: array<V>

    ghost predicate Valid()
      reads this
    {
      list.Length == size
    }

    /** An absent size gives an empty store; otherwise `size` copies of the filler `zero`
        (Python fills with 0). */
    constructor (size: Option<nat>, zero: V)
      ensures Valid() && fresh(list)
      ensures this.size == (if size.Some? then size.value else 0)
      ensures forall k :: 0 <= k < this.size ==> list[k] == zero
    {
      var n := if size.Some? then size.value else 0;
      this.size := n;
      list := new V[n](_ => zero);
    }

    /** `__len__`: the number of slots, which is the length of the backing list. */
    function Length(): (n: nat)
      requires Valid()
      reads this
      ensures n == list.Length
    {
      size
    }

    /** `__getitem__` with an integer key. */
    method Get(key: int) returns (r: Result<Option<V>>)
      requires Valid()
      ensures 0 <= key < size ==> r == Ok(Some(list[key]))
      ensures -(size as int) <= key < 0 ==> r == Ok(Some(list[size + key]))
      ensures key < -(size as int) ==> r == Fail(IndexError)
      ensures key >= size ==> r == Ok(None)
    {
      if key < size {
        if key >= 0 {
          return Ok(Some(list[key]));
        } else if key >= -(size as int) {
          return Ok(Some(list[size + key]));
        } else {
          return Fail(IndexError);
        }
      }
      return Ok(None);
    }

    /** `__getitem__` with the slice [:j], which Python clamps to the list. */
    method Prefix(j: nat) returns (s: seq<V>)
      requires Valid()
      ensures |s| == if j < size then j else size
      ensures s == list[..|s|]
    {
      if j < size {
        s := list[..j];
      } else {
        s := list[..];
      }
    }

    /** `__setitem__`: a write below the length lands (negative keys from the end), a write at
        or past it is dropped, and a key before the start is Python's IndexError. */
    method Put(key: int, value: V) returns (r: Result<()>)
      requires Valid()
      modifies list
      ensures 0 <= key < size ==> r == Ok(()) && list[..] == old(list[..])[key := value]
      ensures -(size as int) <= key < 0 ==> r == Ok(()) && list[..] == old(list[..])[size + key := value]
      ensures key >= size ==> r == Ok(()) && list[..] == old(list[..])
      ensures key < -(size as int) ==> r == Fail(IndexError) && list[..] == old(list[..])
    {
      if key < size {
        if key >= 0 {
          list[key] := value;
        } else if key >= -(size as int) {
          list[size + key] := value;
        } else {
          return Fail(IndexError);
        }
      }
      return Ok(());
    }
  }
}
