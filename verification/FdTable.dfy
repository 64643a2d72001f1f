/** The table of descriptor events: slot i belongs to descriptor i, and slots are only ever added. */
module FdTables {

  class FdEvent {
    const fd: int

    constructor (fd: int)
      ensures this.fd == fd
    {
      this.fd := fd;
    }
  }

  /** The size of the table after a lookup: factor 1.5, truncated, and once only. */
  function SizeAfter(size: nat, fd: nat): nat {
    if fd < size then size else size * 3 / 2
  }

  /** Every lookup finds its descriptor inside the table as it is then. */
  predicate InReach(size: nat, fds: seq<nat>)
    decreases |fds|
  {
    fds == [] || (fds[0] < SizeAfter(size, fds[0]) && InReach(SizeAfter(size, fds[0]), fds[1..]))
  }

  class FdEventGroup {
    var fdEventGroups: seq<FdEvent>
    var size: nat

    ghost predicate Valid()
      reads this
    {
      size == |fdEventGroups| && forall i :: 0 <= i < size ==> fdEventGroups[i].fd == i
    }

    constructor (size: nat)
      ensures Valid() && this.size == size
    {
      this.size := size;
      fdEventGroups := [];
      new;
      for i := 0 to size
        invariant this.size == size && |fdEventGroups| == i
        invariant forall k :: 0 <= k < i ==> fdEventGroups[k].fd == k
      {
        var e := new FdEvent(i);
        fdEventGroups := fdEventGroups + [e];
      }
    }

    method GetFdEvent(fd: nat) returns (event: FdEvent)
      requires Valid() && fd < SizeAfter(size, fd)
      modifies this
      ensures Valid() && size == SizeAfter(old(size), fd)
      ensures fd < old(size) ==> size == old(size)
      ensures fd >= old(size) ==> 2 * size <= 3 * old(size) < 2 * size + 2
      ensures old(fdEventGroups) <= fdEventGroups
      ensures fd < size && event == fdEventGroups[fd] && event.fd == fd
    {
      if fd < |fdEventGroups| {
        return fdEventGroups[fd];
      }
      var newSize := size * 3 / 2;
      for i := size to newSize
        invariant size == old(size) && |fdEventGroups| == i
        invariant old(fdEventGroups) <= fdEventGroups
        invariant forall k :: 0 <= k < i ==> fdEventGroups[k].fd == k
      {
        var e := new FdEvent(i);
        fdEventGroups := fdEventGroups + [e];
      }
      size := newSize;
      return fdEventGroups[fd];
    }

    /** Over any run of lookups, equal descriptors get the same object, whatever was looked up and
        however the table grew in between. */
    method LookUpAll(fds: seq<nat>) returns (events: seq<FdEvent>)
      requires Valid() && InReach(size, fds)
      modifies this
      ensures Valid() && old(fdEventGroups) <= fdEventGroups && |events| == |fds|
      ensures forall i :: 0 <= i < |fds| ==>
                fds[i] < size && events[i] == fdEventGroups[fds[i]] && events[i].fd == fds[i]
      ensures forall i, j :: 0 <= i < |fds| && 0 <= j < |fds| ==> (events[i] == events[j] <==> fds[i] == fds[j])
    {
      events := [];
      for k := 0 to |fds|
        invariant Valid() && old(fdEventGroups) <= fdEventGroups && |events| == k
        invariant InReach(size, fds[k..])
        invariant forall i :: 0 <= i < k ==>
                    fds[i] < size && events[i] == fdEventGroups[fds[i]] && events[i].fd == fds[i]
      {
        assert fds[k..][0] == fds[k] && fds[k..][1..] == fds[k + 1..];
        var e := GetFdEvent(fds[k]);
        events := events + [e];
      }
    }
  }
}
