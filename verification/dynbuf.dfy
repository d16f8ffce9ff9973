/** The growing byte buffer of cutils. */
module DynamicBuffer {
  import opened Bytes

  class DynBuf {
    var buf: array<byte>
    var size: nat

    ghost predicate Valid()
      reads this
    {
      size <= buf.Length
    }

    function Contents(): (s: seq<byte>)
      requires Valid()
      reads this, buf
      ensures |s| == size
    {
      buf[..size]
    }

    /** The buffer still owns its old array or has a new one. */
    twostate predicate Owned()
      reads this
    {
      Valid() && (buf == old(buf) || fresh(buf))
    }

    constructor ()
      ensures Valid() && fresh(buf) && Contents() == []
    {
      buf := new byte[0];
      size := 0;
    }

    /** `dbuf_realloc`: room for `newSize` bytes, half as much again when that is more. */
    method Reserve(newSize: nat)
      requires Valid()
      modifies this
      ensures Owned() && buf.Length >= newSize && size == old(size) && Contents() == old(Contents())
    {
      if newSize > buf.Length {
        var grown := buf.Length * 3 / 2;
        var length := if grown > newSize then grown else newSize;
        var fresh_ := new byte[length];
        forall i | 0 <= i < size {
          fresh_[i] := buf[i];
        }
        buf := fresh_;
      }
    }

    /** `dbuf_put`. */
    method Put(data: seq<byte>)
      requires Valid()
      modifies this, buf
      ensures Owned() && Contents() == old(Contents()) + data
    {
      ghost var before := Contents();
      Reserve(size + |data|);
      forall k | size <= k < size + |data| {
        buf[k] := data[k - size];
      }
      assert buf[..size] == before && buf[size..size + |data|] == data;
      size := size + |data|;
    }

    /** `dbuf_put_self`: appends a copy of `len` bytes of the buffer itself. */
    method PutSelf(offset: nat, len: nat)
      requires Valid() && offset + len <= size
      modifies this, buf
      ensures Owned() && Contents() == old(Contents()) + old(Contents())[offset..offset + len]
    {
      ghost var before := Contents();
      Reserve(size + len);
      assert forall k :: 0 <= k < size ==> buf[k] == before[k];
      var shift := size - offset;
      forall k | size <= k < size + len {
        buf[k] := buf[k - shift];
      }
      assert forall k :: size <= k < size + len ==> buf[k] == before[k - shift];
      ghost var part := before[offset..offset + len];
      forall k | 0 <= k < len ensures buf[size..size + len][k] == part[k] {
        assert buf[size + k] == before[size + k - shift] == part[k];
      }
      assert buf[..size] == before && buf[size..size + len] == part;
      size := size + len;
    }

    /** `dbuf_insert`: opens a gap of `len` bytes at `pos`; what the gap holds is not specified. */
    method Insert(pos: nat, len: nat)
      requires Valid() && pos <= size
      modifies this, buf
      ensures Owned() && size == old(size) + len
      ensures Contents()[..pos] == old(Contents())[..pos] && Contents()[pos + len..] == old(Contents())[pos..]
    {
      ghost var before := Contents();
      Reserve(size + len);
      var a, i := buf, size;
      while i > pos
        invariant buf == a && Owned() && size == |before| && size + len <= a.Length
        invariant pos <= i <= size
        invariant forall k :: 0 <= k < i ==> a[k] == before[k]
        invariant forall k :: i <= k < size ==> a[k + len] == before[k]
        modifies a
      {
        i := i - 1;
        a[i + len] := a[i];
      }
      size := size + len;
      forall k | 0 <= k < |before| - pos ensures Contents()[pos + len..][k] == before[pos..][k] {
        var j := pos + k;
        assert a[j + len] == before[j];
      }
    }

    /** Overwrites the bytes from `pos` on, which exist already. */
    method Store(pos: nat, data: seq<byte>)
      requires Valid() && pos + |data| <= size
      modifies buf
      ensures Contents() == old(Contents())[..pos] + data + old(Contents())[pos + |data|..]
    {
      ghost var before := Contents();
      forall k | pos <= k < pos + |data| {
        buf[k] := data[k - pos];
      }
      assert buf[..pos] == before[..pos] && buf[pos..pos + |data|] == data && buf[pos + |data|..size] == before[pos + |data|..];
    }

    /** Cuts the contents back to `n` bytes. */
    method Truncate(n: nat)
      requires Valid() && n <= size
      modifies this`size
      ensures Valid() && Contents() == old(Contents())[..n]
    {
      size := n;
    }
  }
}
