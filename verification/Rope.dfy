/**
  The growable byte rope (huawei-generic/gsm.c).

  A rope without data only measures: every add moves `pos` and stores nothing.  A rope with data
  grows when needed.  `heap(n)` says whether an allocation of n bytes succeeds.
 */
module Ropes {
  import opened Options
  import opened Bytes

  /** A store: what is before it and in it, and what is behind it. */
  lemma StoredAt(was: seq<byte>, at: nat, bytes: seq<byte>)
    requires at + |bytes| <= |was|
    ensures var now := Splice(was, at, bytes);
      now[..at + |bytes|] == was[..at] + bytes && forall i :: at + |bytes| <= i < |was| ==> now[i] == was[i]
  {
    SpliceParts(was, at, bytes);
  }

  class Rope {
    const heap: nat -> bool
    /** The 16 bytes inside the record. */
    const data0: array<byte>
    var data: array?<byte>
    var max: nat
    var pos: nat
    var error: bool

    ghost predicate Valid()
      reads this
    {
      data0.Length == 16 && (data != null ==> max == data.Length) && (data != null && !error ==> pos <= max)
    }

    /** `n` more bytes fit without growing. */
    ghost predicate HasRoom(n: nat)
      reads this
    {
      Valid() && data != null && !error && pos + n <= max
    }

    /** Nothing has been stored beyond the position yet. */
    ghost predicate Zeroed()
      reads this, data
    {
      data != null ==> forall i :: pos <= i < data.Length ==> data[i] == 0
    }

    ghost function Content(): seq<byte>
      requires HasRoom(0)
      reads this, data
    {
      data[..pos]
    }

    /** Adding `bytes`: the position advances by their length whatever happens; a rope without data
        stays so; with zeroed room nothing is reallocated and exactly the bytes are stored. */
    twostate predicate Appends(bytes: seq<byte>)
      reads this, data
    {
      Valid() && pos == old(pos) + |bytes| && (data == old(data) || fresh(data)) &&
      (old(data) == null ==> data == null && error == old(error)) &&
      (old(HasRoom(|bytes|) && Zeroed()) ==>
        HasRoom(0) && Zeroed() && data == old(data) && max == old(max) &&
        data[..] == Splice(old(data[..]), old(pos), bytes))
    }

    /** A record as gsm_rope_init leaves it. */
    constructor (heap: nat -> bool)
      ensures Valid() && this.heap == heap && data == null && pos == 0 && max == 0 && !error && fresh(data0)
    {
      this.heap := heap;
      data0 := new byte[16](_ => 0);
      data, max, pos, error := null, 0, 0, false;
    }

    /** gsm_rope_init */
    method Init()
      requires Valid()
      modifies this
      ensures Valid() && data == null && pos == 0 && max == 0 && !error
    {
      data, pos, max, error := null, 0, 0, false;
    }

    /** gsm_rope_init_alloc: zeroed heap bytes, or the inline ones for a count of 0. */
    method InitAlloc(count: nat)
      requires Valid()
      modifies this
      ensures Valid() && pos == 0
      ensures count == 0 ==> data == data0 && max == 16 && !error
      ensures count > 0 && heap(count) ==> data != null && fresh(data) && data != data0
      ensures count > 0 && heap(count) ==> max == count && !error && Zeroed()
      ensures count > 0 && !heap(count) ==> data == null && max == 0 && error
    {
      data, pos, max, error := data0, 0, 16, false;
      if count > 0 {
        if heap(count) {
          data := new byte[count](_ => 0);
          max := count;
        } else {
          data, error, max := null, true, 0;
        }
      }
    }

    /** gsm_rope_ensure.  realloc keeps what a heap block held; the inline bytes are not copied.  A rope
        without data only notes the size. */
    method Ensure(newCount: nat) returns (ok: bool)
      requires Valid()
      modifies this
      ensures Valid() && pos == old(pos) && (data == null <==> old(data) == null)
      ensures old(data) == null ==> ok && max == newCount && error == old(error)
      ensures old(data) != null && ok ==>
        error == old(error) && fresh(data) && newCount <= max && old(max) <= max && data != data0
      ensures old(data) != null && ok && old(data) != data0 ==> data[..old(max)] == old(data[..])
      ensures !ok ==> error && data == old(data) && max == old(max) && exists n :: !heap(n)
    {
      if data == null {
        max := newCount;
        return true;
      }
      var newMax := max;
      while newMax < newCount
        invariant max <= newMax
        decreases newCount - newMax
      {
        newMax := newMax + newMax / 2 + 4;
      }
      if !heap(newMax) {
        error := true;
        return false;
      }
      var bytes := new byte[newMax](_ => 0);
      if data != data0 {
        var i, block := 0, data;
        while i < block.Length
          invariant 0 <= i <= block.Length <= bytes.Length
          invariant bytes[..i] == block[..i]
          modifies bytes
        {
          bytes[i] := block[i];
          i := i + 1;
        }
      }
      data := bytes;
      max := newMax;
      return true;
    }

    /** gsm_rope_can_grow */
    method CanGrow(count: nat) returns (ok: bool)
      requires Valid()
      modifies this
      ensures Valid() && pos == old(pos) && (data == old(data) || fresh(data))
      ensures old(data) == null ==> !ok && data == null && error == old(error)
      ensures ok ==> HasRoom(count)
      ensures !ok ==> data == null || error
      ensures !ok ==> old(data) == null || old(error) || exists n :: !heap(n)
      ensures old(HasRoom(count)) ==> ok && data == old(data) && max == old(max)
      ensures ok && old(HasRoom(0)) && (old(data) != data0 || pos == 0) ==> Content() == old(Content())
      ensures data == old(data) && data != null ==> max == old(max)
      ensures data != old(data) ==> data != null && data != data0
    {
      if data == null || error { return false; }
      if pos + count > max {
        ok := Ensure(pos + count);
        if ok && old(data) != data0 && old(HasRoom(0)) {
          assert data[..pos] == data[..old(max)][..pos];
        }
        return;
      }
      return true;
    }

    /** gsm_rope_add: the position always advances; the bytes are stored when there is somewhere to
        put them. */
    method Add(buf: seq<byte>)
      requires Valid()
      modifies this, data
      ensures Appends(buf)
      ensures old(HasRoom(0)) && !error && (old(data) != data0 || old(pos) == 0) ==>
        HasRoom(0) && Content() == old(Content()) + buf
    {
      hide Splice;
      var ok := CanGrow(|buf|);
      if ok {
        ghost var was := data[..];
        Store(data, pos, buf);
        StoredAt(was, pos, buf);
        assert data[..pos + |buf|] == was[..pos] + buf;
        assert forall i :: pos + |buf| <= i < data.Length ==> data[i] == data[..][i] == was[i];
      }
      pos := pos + |buf|;
    }

    /** gsm_rope_add_c */
    method AddC(c: byte)
      requires Valid()
      modifies this, data
      ensures Appends([c])
      ensures old(HasRoom(0)) && !error && (old(data) != data0 || old(pos) == 0) ==>
        HasRoom(0) && Content() == old(Content()) + [c]
    {
      var ok := CanGrow(1);
      if ok {
        data[pos] := c;
      }
      pos := pos + 1;
    }

    /** gsm_rope_reserve: the index of the reserved bytes when there are any. */
    method Reserve(count: nat) returns (at: Option<nat>)
      requires Valid()
      modifies this
      ensures Valid() && pos == old(pos) + count && (data == old(data) || fresh(data))
      ensures old(data) == null ==> at == None && data == null && error == old(error)
      ensures at.Some? ==> HasRoom(0) && at.value == old(pos)
      ensures at.None? ==> old(data) == null || old(error) || exists n :: !heap(n)
      ensures old(HasRoom(count)) ==> at.Some? && data == old(data) && max == old(max)
      ensures old(HasRoom(0)) && at.Some? && (old(data) != data0 || old(pos) == 0) ==>
        data[..old(pos)] == old(data[..pos])
    {
      var ok := CanGrow(count);
      at := if ok then Some(pos) else None;
      pos := pos + count;
    }
  }
}
