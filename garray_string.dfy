/** A growable array of strings with positional operations, as the garray
    package's StringArray offers it. The struct's slice field is modelled as
    a Go slice header: a backing array (whose length is the slice capacity)
    and the number of elements in use. Locking is not part of this module. */
module GArray {

  /** `n` empty strings: what `make([]string, n)` holds. */
  function Blank(n: nat): (r: seq<string>)
    ensures |r| == n
    ensures forall k :: 0 <= k < n ==> r[k] == ""
  {
    seq(n, _ => "")
  }

  /** `s` with `v` placed in front of position `i`. */
  function Inserted(s: seq<string>, i: nat, v: string): (r: seq<string>)
    requires i <= |s|
  {
    s[..i] + [v] + s[i..]
  }

  /** `s` without the element at position `i`. */
  function Removed(s: seq<string>, i: nat): (r: seq<string>)
    requires i < |s|
  {
    s[..i] + s[i + 1..]
  }

  /** Inserting grows the sequence by exactly one: positions before `i` keep
      their elements, `i` holds `v`, and every later element moves up by one. */
  lemma InsertedShape(s: seq<string>, i: nat, v: string)
    requires i <= |s|
    ensures |Inserted(s, i, v)| == |s| + 1
    ensures Inserted(s, i, v)[i] == v
    ensures forall k :: 0 <= k < i ==> Inserted(s, i, v)[k] == s[k]
    ensures forall k :: i < k <= |s| ==> Inserted(s, i, v)[k] == s[k - 1]
  {
  }

  /** Removing shrinks the sequence by exactly one: positions before `i` keep
      their elements and every later element moves down by one. */
  lemma RemovedShape(s: seq<string>, i: nat)
    requires i < |s|
    ensures |Removed(s, i)| == |s| - 1
    ensures forall k :: 0 <= k < i ==> Removed(s, i)[k] == s[k]
    ensures forall k :: i <= k < |s| - 1 ==> Removed(s, i)[k] == s[k + 1]
  {
  }

  /** Insert followed by Remove at the same index restores the contents. */
  lemma RemoveUndoesInsert(s: seq<string>, i: nat, v: string)
    requires i <= |s|
    ensures Removed(Inserted(s, i, v), i) == s
  {
  }

  /** Remove followed by re-inserting the removed element restores the contents. */
  lemma InsertUndoesRemove(s: seq<string>, i: nat)
    requires i < |s|
    ensures Inserted(Removed(s, i), i, s[i]) == s
  {
  }

  /** Appending is inserting in front of the (non-existent) position Len(). */
  lemma AppendIsInsertAtEnd(s: seq<string>, v: string)
    ensures s + [v] == Inserted(s, |s|, v)
  {
  }

  class StringArray {
    /** Capacity given at construction (0 when none was given). */
    var cap: int
    /** Length given at construction; Clear restores this many elements. */
    var size: int
    /** Backing store of the slice; its length is the slice's capacity. */
    var data: array<string>
    /** Number of elements of `data` in use: the slice's length. */
    var length: nat

    ghost predicate Valid()
      reads this
    {
      0 <= size && (cap == 0 || size <= cap) && length <= data.Length
    }

    /** The slice's contents, as the source's callers see them. */
    ghost function Contents(): (s: seq<string>)
      reads this, data
      requires Valid()
      ensures |s| == length
    {
      data[..length]
    }

    /** NewStringArray(size, cap...): `size` empty strings; an optional
        capacity sizes the backing store and is remembered for Clear. */
    constructor (size: int, cap: seq<int>)
      requires 0 <= size
      requires |cap| > 0 ==> size <= cap[0]
      ensures Valid() && fresh(data)
      ensures Contents() == Blank(size)
      ensures this.size == size
      ensures this.cap == if |cap| > 0 then cap[0] else 0
      ensures data.Length == if |cap| > 0 then cap[0] else size
    {
      this.size := size;
      if |cap| > 0 {
        this.cap := cap[0];
        data := new string[cap[0]](_ => "");
      } else {
        this.cap := 0;
        data := new string[size](_ => "");
      }
      length := size;
    }

    /** Go's builtin `append(slice, xs...)` applied to this slice: writes in
        place when the backing store has room, otherwise moves the elements
        to a fresh, larger backing store. */
    method AppendValues(xs: seq<string>)
      requires Valid()
      modifies this, data
      ensures Valid()
      ensures Contents() == old(Contents()) + xs
      ensures data == old(data) || fresh(data)
      ensures size == old(size) && cap == old(cap)
    {
      if length + |xs| <= data.Length {
        forall k | 0 <= k < |xs| {
          data[length + k] := xs[k];
        }
        length := length + |xs|;
      } else {
        var s := data[..length] + xs;
        var newCap := if |s| > 2 * data.Length then |s| else 2 * data.Length;
        data := new string[newCap]((k: nat) => if k < |s| then s[k] else "");
        length := |s|;
      }
    }

    /** Get(index): the element at `index`; the caller checks the bounds. */
    method Get(index: int) returns (value: string)
      requires Valid()
      requires 0 <= index < length
      ensures value == Contents()[index]
    {
      value := data[index];
    }

    /** Set(index, value): overwrite position `index`; the caller checks the bounds. */
    method Set(index: int, value: string)
      requires Valid()
      requires 0 <= index < length
      modifies data
      ensures Valid()
      ensures Contents() == old(Contents())[index := value]
    {
      data[index] := value;
    }

    /** Insert(index, value): place `value` in front of position `index`.
        The tail is copied out first, because appending `value` to the
        prefix writes into the shared backing store at `index`. */
    method Insert(index: int, value: string)
      requires Valid()
      requires 0 <= index <= length
      modifies this, data
      ensures Valid()
      ensures Contents() == Inserted(old(Contents()), index, value)
      ensures data == old(data) || fresh(data)
      ensures size == old(size) && cap == old(cap)
    {
      var rear := data[index..length];
      length := index;
      AppendValues([value]);
      AppendValues(rear);
    }

    /** Remove(index): drop position `index`; the caller checks the bounds.
        The tail moves down one place within the same backing store. */
    method Remove(index: int)
      requires Valid()
      requires 0 <= index < length
      modifies this, data
      ensures Valid()
      ensures Contents() == Removed(old(Contents()), index)
      ensures data == old(data) || fresh(data)
      ensures size == old(size) && cap == old(cap)
    {
      // Go's append copies with memmove semantics, so reading the overlapping
      // tail as a value first gives the same result.
      var tail := data[index + 1..length];
      length := index;
      AppendValues(tail);
    }

    /** Append(value): add `value` at the end. */
    method Append(value: string)
      requires Valid()
      modifies this, data
      ensures Valid()
      ensures Contents() == old(Contents()) + [value]
      ensures data == old(data) || fresh(data)
      ensures size == old(size) && cap == old(cap)
    {
      AppendValues([value]);
    }

    /** Len(): the number of elements. */
    method Len() returns (n: int)
      requires Valid()
      ensures n == |Contents()|
    {
      n := length;
    }

    /** Slice(): the current contents. */
    method Slice() returns (s: seq<string>)
      requires Valid()
      ensures s == Contents()
    {
      s := data[..length];
    }

    /** Clear(): back to `size` empty strings, with the capacity given at
        construction when there was one. */
    method Clear()
      requires Valid()
      modifies this
      ensures Valid() && fresh(data)
      ensures Contents() == Blank(size)
      ensures data.Length == if cap > 0 then cap else size
      ensures size == old(size) && cap == old(cap)
    {
      if cap > 0 {
        data := new string[cap](_ => "");
      } else {
        data := new string[size](_ => "");
      }
      length := size;
    }
  }
}
