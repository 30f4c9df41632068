/** A vector with room for a few elements inside the object. */
module SmallVectors {

  newtype SizeT = x: int | 0 <= x <= 0xffff_ffff_ffff_ffff

  const SIZE_MAX: SizeT := 0xffff_ffff_ffff_ffff

  /** `elementSize` is sizeof(T), `inlineCapacity` the template argument N. */
  class SmallVector<T(0)> {
    const elementSize: SizeT
    const inlineCapacity: SizeT
    /** The storage inside the object. */
    const stackStorage: array<T>
    /** Null only in a vector whose buffer has been moved out. */
    var ptr: array?<T>
    var bufferSize: SizeT
    var bufferCapacity: SizeT

    ghost predicate Valid()
      reads this
    {
      && elementSize > 0
      && stackStorage.Length == inlineCapacity as int
      && bufferSize <= bufferCapacity && (bufferCapacity == 0 || bufferCapacity >= inlineCapacity)
      && (if ptr == null then bufferCapacity == 0 else ptr.Length == bufferCapacity as int)
    }

    ghost function Repr(): set<object>
      reads this
    {
      if ptr == null then {this, stackStorage} else {this, stackStorage, ptr}
    }

    /** The elements, in order. */
    ghost function Contents(): seq<T>
      requires Valid()
      reads this, ptr
    {
      if ptr == null then [] else ptr[..bufferSize as int]
    }

    /** More elements than this cannot be in memory; the program terminates when asked for them. */
    ghost predicate Addressable(count: int)
      reads this
    {
      elementSize > 0 && count <= (SIZE_MAX / elementSize) as int && count <= (SIZE_MAX / 2) as int
    }

    constructor (elementSize: SizeT, inlineCapacity: SizeT)
      requires elementSize > 0
      ensures Valid() && Contents() == [] && fresh(Repr())
      ensures this.elementSize == elementSize && this.inlineCapacity == inlineCapacity
    {
      this.elementSize := elementSize;
      this.inlineCapacity := inlineCapacity;
      var storage := new T[inlineCapacity as int];
      stackStorage := storage;
      ptr := storage;
      bufferSize := 0;
      bufferCapacity := inlineCapacity;
    }

    /** Makes room for `count` elements, doubling the capacity as often as needed and no more often;
        a buffer on the heap is used only when the inline storage is too small. */
    method Reserve(count: SizeT)
      requires Valid() && Addressable(count as int)
      modifies this, stackStorage
      ensures Valid() && Contents() == old(Contents()) && bufferSize == old(bufferSize)
      ensures bufferCapacity >= count
      ensures count <= old(bufferCapacity) ==> ptr == old(ptr) && bufferCapacity == old(bufferCapacity)
      ensures count > old(bufferCapacity) ==>
                && bufferCapacity as int >= 2 * old(bufferCapacity) as int
                && (bufferCapacity as int < 2 * count as int || bufferCapacity == inlineCapacity)
                && (ptr == stackStorage <==> bufferCapacity == inlineCapacity)
      ensures ptr == old(ptr) || ptr == stackStorage || fresh(ptr)
    {
      if count > bufferCapacity {
        var targetCapacity := bufferCapacity;
        if targetCapacity == 0 {
          targetCapacity := 1;
        }
        if targetCapacity < inlineCapacity {
          targetCapacity := inlineCapacity;
        }
        while targetCapacity < count
          invariant targetCapacity >= 1 && targetCapacity >= inlineCapacity && targetCapacity >= bufferCapacity
          invariant targetCapacity == bufferCapacity || targetCapacity as int >= 2 * bufferCapacity as int
          invariant targetCapacity == inlineCapacity || (targetCapacity as int) < 2 * count as int
          decreases count as int - targetCapacity as int
        {
          targetCapacity := targetCapacity * 2;
        }
        var newBuffer := stackStorage;
        if targetCapacity > inlineCapacity {
          newBuffer := new T[targetCapacity as int];
        }
        if newBuffer != ptr {
          ghost var before := Contents();
          for i := 0 to bufferSize as int
            invariant ptr == old(ptr) && bufferSize == old(bufferSize) && bufferCapacity == old(bufferCapacity)
            invariant newBuffer.Length == targetCapacity as int
            invariant Contents() == before
            invariant newBuffer[..i] == before[..i]
          {
            newBuffer[i] := ptr[i];
          }
        }
        ptr := newBuffer;
        bufferCapacity := targetCapacity;
      }
    }

    method PushBack(t: T)
      requires Valid() && Addressable(|Contents()| + 1)
      modifies this, stackStorage, ptr
      ensures Valid() && Contents() == old(Contents()) + [t]
    {
      Reserve(bufferSize + 1);
      ptr[bufferSize as int] := t;
      bufferSize := bufferSize + 1;
    }

    method Resize(newSize: SizeT, fill: T)
      requires Valid() && (newSize > bufferSize ==> Addressable(newSize as int))
      modifies this, stackStorage, ptr
      ensures Valid()
      ensures Contents() == if newSize as int <= |old(Contents())| then old(Contents())[..newSize as int]
                            else old(Contents()) + seq(newSize as int - |old(Contents())|, _ => fill)
    {
      ghost var before := Contents();
      if newSize > bufferSize {
        Reserve(newSize);
        for i := bufferSize as int to newSize as int
          invariant Valid() && bufferSize == old(bufferSize) && newSize <= bufferCapacity && ptr != null
          invariant ptr == stackStorage || fresh(ptr) || ptr == old(ptr)
          invariant ptr[..i] == before + seq(i - |before|, _ => fill)
        {
          ptr[i] := fill;
        }
      }
      bufferSize := newSize;
    }

    method PopBack(fill: T)
      requires Valid()
      modifies this, stackStorage, ptr
      ensures Valid()
      ensures Contents() == if |old(Contents())| == 0 then [] else old(Contents())[..|old(Contents())| - 1]
    {
      if bufferSize != 0 {
        Resize(bufferSize - 1, fill);
      }
    }

    /** Removes the elements from `start` up to `end`. */
    method Erase(start: SizeT, end: SizeT, fill: T)
      requires Valid() && start <= end && end as int <= |Contents()|
      modifies this, stackStorage, ptr
      ensures Valid() && Contents() == old(Contents())[..start as int] + old(Contents())[end as int..]
    {
      hide Addressable;
      ghost var before := Contents();
      if end == bufferSize {
        Resize(start, fill);
        assert before[end as int..] == [];
      } else {
        var newSize := bufferSize - (end - start);
        MoveDown(ptr, start as int, end as int, bufferSize as int);
        MovedDown(ptr[..], before, start as int, end as int);
        Resize(newSize, fill);
      }
    }

    /** Inserts a range that lies outside this vector before position `pos`. */
    method Insert(pos: SizeT, range: seq<T>)
      requires Valid() && pos as int <= |Contents()| && Addressable(|Contents()| + |range|)
      modifies this, stackStorage, ptr
      ensures Valid() && Contents() == old(Contents())[..pos as int] + range + old(Contents())[pos as int..]
    {
      var count := |range| as SizeT;
      if pos == bufferSize {
        InsertAtEnd(range, count);
      } else if bufferSize + count > bufferCapacity {
        InsertIntoNewBuffer(pos, range, count);
      } else {
        InsertInPlace(pos, range, count);
      }
    }

    /** Takes over the elements of another vector, which is left empty: its buffer changes hands, or
        its inline elements are moved one by one. Moving a vector onto itself leaves it empty. */
    method MoveFrom(other: SmallVector<T>)
      requires Valid() && other.Valid() && Addressable(|other.Contents()|)
      requires other == this || Repr() !! other.Repr()
      requires other.inlineCapacity == inlineCapacity && other.elementSize == elementSize
      modifies this, stackStorage, ptr, other
      ensures Valid() && other.Valid() && (other == this || Repr() !! other.Repr())
      ensures Contents() == (if other == this then [] else old(other.Contents())) && other.Contents() == []
    {
      bufferSize := 0;
      if other.ptr != other.stackStorage {
        ptr := other.ptr;
        bufferSize := other.bufferSize;
        bufferCapacity := other.bufferCapacity;
        other.ptr := null;
        other.bufferSize := 0;
        other.bufferCapacity := 0;
      } else {
        Reserve(other.bufferSize);
        var n := other.bufferSize as int;
        if n > 0 {
          CopyRange(ptr, 0, other.ptr, 0, n);
        }
        bufferSize := other.bufferSize;
        other.bufferSize := 0;
      }
    }

    method InsertAtEnd(range: seq<T>, count: SizeT)
      requires Valid() && count as int == |range| && Addressable(|Contents()| + |range|)
      modifies this, stackStorage, ptr
      ensures Valid() && Contents() == old(Contents()) + range
    {
      ghost var before := Contents();
      Reserve(bufferSize + count);
      for i := 0 to |range|
        invariant Valid() && bufferSize == old(bufferSize) && bufferSize + count <= bufferCapacity
        invariant ptr == stackStorage || fresh(ptr) || ptr == old(ptr)
        invariant ptr == null ==> bufferCapacity == 0
        invariant ptr != null ==> ptr[..bufferSize as int + i] == before + range[..i]
      {
        ptr[bufferSize as int + i] := range[i];
      }
      bufferSize := bufferSize + count;
    }

    /** The part before the position, the new elements and the rest go to a new buffer. */
    method InsertIntoNewBuffer(pos: SizeT, range: seq<T>, count: SizeT)
      requires Valid() && count as int == |range| && Addressable(|Contents()| + |range|)
      requires pos < bufferSize && bufferSize + count > bufferCapacity
      modifies this, stackStorage, ptr
      ensures Valid() && Contents() == old(Contents())[..pos as int] + range + old(Contents())[pos as int..]
    {
      ghost var before := Contents();
      var targetCapacity := bufferSize + count;
      if targetCapacity < inlineCapacity {
        targetCapacity := inlineCapacity;
      }
      // Already enough: capacity never has to be doubled to make room for the new elements.
      assert targetCapacity != 0 && targetCapacity >= count;
      var newBuffer := stackStorage;
      if targetCapacity > inlineCapacity {
        newBuffer := new T[targetCapacity as int];
      }
      if newBuffer != ptr {
        Assemble(newBuffer, ptr, pos as int, bufferSize as int, range);
      }
      assert newBuffer[..bufferSize as int + |range|] == before[..pos as int] + range + before[pos as int..];
      ptr := newBuffer;
      bufferCapacity := targetCapacity;
      bufferSize := bufferSize + count;
    }

    /** The rest moves up, last element first, and the new elements go in its place. */
    method InsertInPlace(pos: SizeT, range: seq<T>, count: SizeT)
      requires Valid() && count as int == |range| && pos < bufferSize
      requires bufferSize as int + |range| <= bufferCapacity as int
      modifies this, stackStorage, ptr
      ensures Valid() && Contents() == old(Contents())[..pos as int] + range + old(Contents())[pos as int..]
    {
      ghost var before := Contents();
      var size, first := bufferSize as int, pos as int;
      var at := first + |range|;
      MoveUp(ptr, first, size, |range|);
      assert ptr[..first] == before[..first];
      ghost var tail := ptr[at..];
      TailMoved(ptr[..], tail, before, first, at);
      FillUp(ptr, first, size, range);
      TwoParts(ptr[..at], before[..first], range);
      TwoParts(ptr[..size + |range|], before[..first] + range, before[first..]);
      bufferSize := bufferSize + count;
    }
  }

  /** What is left of `before` without the elements from `at` up to `from`. */
  lemma MovedDown<T>(buf: seq<T>, before: seq<T>, at: nat, from: nat)
    requires at <= from <= |before| <= |buf|
    requires buf[..at] == before[..at] && buf[at..at + (|before| - from)] == before[from..]
    ensures buf[..at + (|before| - from)] == before[..at] + before[from..]
  {
    assert buf[..at + (|before| - from)] == buf[..at] + buf[at..at + (|before| - from)];
  }

  lemma TwoParts<T>(whole: seq<T>, a: seq<T>, b: seq<T>)
    requires |whole| == |a| + |b|
    requires forall i :: 0 <= i < |a| ==> whole[i] == a[i]
    requires forall i :: 0 <= i < |b| ==> whole[|a| + i] == b[i]
    ensures whole == a + b
  {
  }

  lemma TailMoved<T>(buf: seq<T>, tail: seq<T>, before: seq<T>, first: nat, at: nat)
    requires first <= |before| && at <= |buf| && tail == buf[at..] && |before| - first <= |tail|
    requires buf[at..at + (|before| - first)] == before[first..]
    ensures forall i :: 0 <= i < |before| - first ==> tail[i] == before[first..][i]
  {
    assert forall i :: 0 <= i < |before| - first ==> tail[i] == buf[at..at + (|before| - first)][i];
  }

  /** Copies `src[from..to]` to another array. */
  method CopyRange<T>(dst: array<T>, at: nat, src: array<T>, from: nat, to: nat)
    requires dst != src && from <= to <= src.Length && at + (to - from) <= dst.Length
    modifies dst
    ensures dst[at..at + (to - from)] == src[from..to]
    ensures dst[..at] == old(dst[..at]) && dst[at + (to - from)..] == old(dst[at + (to - from)..])
  {
    var target, source := at, from;
    while source != to
      invariant from <= source <= to && target == at + (source - from)
      invariant dst[at..target] == src[from..source]
      invariant dst[..at] == old(dst[..at]) && dst[target..] == old(dst[target..])
    {
      dst[target] := src[source];
      target, source := target + 1, source + 1;
    }
  }

  /** Puts `src[..size]` with `range` at `first` into a new buffer. */
  method Assemble<T>(dst: array<T>, src: array<T>, first: nat, size: nat, range: seq<T>)
    requires dst != src && first <= size <= src.Length && size + |range| <= dst.Length
    modifies dst
    ensures dst[..size + |range|] == src[..first] + range + src[first..size]
  {
    var at := first + |range|;
    CopyRange(dst, 0, src, 0, first);
    assert dst[..first] == src[..first];
    FillUp(dst, first, first, range);
    TwoParts(dst[..at], src[..first], range);
    CopyRange(dst, at, src, first, size);
    TwoParts(dst[..size + |range|], src[..first] + range, src[first..size]);
  }

  /** Moves `buf[from..size]` down to `at`. */
  method MoveDown<T>(buf: array<T>, at: nat, from: nat, size: nat)
    requires at <= from <= size <= buf.Length
    modifies buf
    ensures buf[..at] == old(buf[..at]) && buf[at..at + (size - from)] == old(buf[from..size])
  {
    ghost var orig := buf[..];
    var source, target := from, at;
    while source < size
      invariant from <= source <= size && target == at + (source - from)
      invariant buf[..at] == orig[..at] && buf[at..target] == orig[from..source] && buf[source..] == orig[source..]
    {
      buf[target] := buf[source];
      source, target := source + 1, target + 1;
    }
  }

  /** Moves `buf[first..size]` up by `n` places: first into the free part, then by assignment. */
  method MoveUp<T>(buf: array<T>, first: nat, size: nat, n: nat)
    requires first <= size && size + n <= buf.Length
    modifies buf
    ensures buf[..first] == old(buf[..first])
    ensures buf[first + n..size + n] == old(buf[first..size])
  {
    ghost var orig := buf[..];
    var target, source := size + n, size;
    while target != size && source != first
      invariant first <= source <= size && target == source + n && target >= size
      invariant buf[..source] == orig[..source] && buf[target..size + n] == orig[source..size]
    {
      target, source := target - 1, source - 1;
      buf[target] := buf[source];
    }
    while source != first
      invariant first <= source <= size && target == source + n
      invariant buf[..source] == orig[..source] && buf[target..size + n] == orig[source..size]
    {
      target, source := target - 1, source - 1;
      buf[target] := buf[source];
    }
  }

  /** Writes `range` at `first`: over the elements up to `size`, then into the free part. */
  method FillUp<T>(buf: array<T>, first: nat, size: nat, range: seq<T>)
    requires first <= size && size + |range| <= buf.Length
    modifies buf
    ensures buf[..first] == old(buf[..first]) && buf[first..first + |range|] == range
    ensures buf[first + |range|..] == old(buf[first + |range|..])
  {
    var itr, k := first, 0;
    while itr != size && k != |range|
      invariant 0 <= k <= |range| && itr == first + k && itr <= size
      invariant forall j :: 0 <= j < first || itr <= j < buf.Length ==> buf[j] == old(buf[j])
      invariant forall j :: 0 <= j < k ==> buf[first + j] == range[j]
    {
      buf[itr] := range[k];
      itr, k := itr + 1, k + 1;
    }
    while k != |range|
      invariant 0 <= k <= |range| && itr == first + k
      invariant forall j :: 0 <= j < first || itr <= j < buf.Length ==> buf[j] == old(buf[j])
      invariant forall j :: 0 <= j < k ==> buf[first + j] == range[j]
    {
      buf[itr] := range[k];
      itr, k := itr + 1, k + 1;
    }
  }
}
