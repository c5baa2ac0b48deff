/** Go slices of process ids: a backing array plus a length. Appending writes into the
    backing array when there is spare room, so slices that were appended to the same prefix
    can share memory. */
module Slices {

  type Pid = nat

  datatype Slice = Slice(buf: array<Pid>, len: nat) {
    ghost predicate Valid() {
      len <= buf.Length
    }

    // The elements the slice shows.
    ghost function View(): (s: seq<Pid>)
      requires Valid()
      reads buf
      ensures |s| == len
    {
      buf[..len]
    }
  }

  // A one-element slice literal.
  method Single(x: Pid) returns (s: Slice)
    ensures s.Valid() && fresh(s.buf) && s.View() == [x]
  {
    var buf := new Pid[1];
    buf[0] := x;
    s := Slice(buf, 1);
  }

  // The built-in append: in place when the capacity allows, otherwise into a larger array
  // whose capacity the language does not fix.
  method Append(s: Slice, x: Pid) returns (r: Slice)
    requires s.Valid()
    modifies s.buf
    ensures r.Valid() && (r.buf == s.buf || fresh(r.buf))
    ensures r.View() == old(s.View()) + [x]
    ensures s.View() == old(s.View())
  {
    if s.len < s.buf.Length {
      s.buf[s.len] := x;
      r := Slice(s.buf, s.len + 1);
    } else {
      var capacity: nat :| capacity > s.len;
      var buf := new Pid[capacity];
      forall i | 0 <= i < s.len {
        buf[i] := s.buf[i];
      }
      buf[s.len] := x;
      r := Slice(buf, s.len + 1);
    }
  }
}
