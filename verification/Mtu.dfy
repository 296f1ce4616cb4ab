/** The search for the path MTU in src/udx.c (section 5.1 of RFC 8899): data packets padded to a larger size
    are sent as probes, and their fate moves the search. */
module Mtu {

  const MTU_BASE := 1200
  const MTU_MAX := 1500
  const MTU_STEP := 32
  const MAX_PROBES := 3
  const MAX_PADDING := 255

  datatype State = Base | Search | Error | SearchComplete

  /** The MTU fields of `udx_stream_t`, and which packets are probes. */
  class PathMtu {
    var state: State
    var mtu: int
    var mtuMax: int
    var probeSize: int
    var probeCount: nat
    var probeWanted: bool
    /** The packets with `is_mtu_probe` set, by number, with the IP size each is padded to. */
    var probes: map<nat, int>

    /** The search has, at any time, exactly one probe to wait for or to send; a probe on its way is padded
        to the size the search is at. */
    ghost predicate Valid()
      reads this
    {
      && probeCount <= MAX_PROBES && MTU_BASE <= mtu <= (if mtuMax > MTU_BASE then mtuMax else MTU_BASE) && mtuMax <= MTU_MAX
      && (state.Search? ==> MTU_BASE < mtuMax && mtu <= probeSize <= mtuMax)
      && (state.Base? || state.Error? ==> MTU_BASE < mtuMax && probeSize == mtu == MTU_BASE && probeCount == 0)
      && (probeWanted ==> state.Search? && probeCount < MAX_PROBES)
      && (forall n :: n in probes ==> state.Search? && !probeWanted && probeCount > 0 && probes == map[n := probeSize])
      && (state.Search? ==> probeWanted || probes != map[])
    }

    /** Bounds the number of probes still to come. */
    ghost function Left(): nat
      reads this
      requires Valid()
    {
      if state.Search? then 4 * (mtuMax - probeSize) + (MAX_PROBES - probeCount) + 1
      else if !state.SearchComplete? then 4 * (mtuMax - probeSize) + MAX_PROBES + 1
      else 0
    }

    /** `reset_mtu_state_machine`, then what `udx_stream_connect` makes of the MTU the system reports for the
        link; -1 stands for none. */
    constructor (linkMtu: int)
      requires linkMtu >= -1
      ensures Valid() && mtu == MTU_BASE
      ensures mtuMax == (if linkMtu == -1 || linkMtu > MTU_MAX then MTU_MAX else linkMtu)
      ensures state == if -1 < linkMtu <= MTU_BASE then SearchComplete else Base
    {
      mtu, state, probeCount, probeSize, mtuMax, probeWanted, probes := MTU_BASE, Base, 0, MTU_BASE, MTU_MAX, false, map[];
      new;
      var link := linkMtu;
      if link == -1 || link > MTU_MAX {
        link := MTU_MAX;
      } else if link <= MTU_BASE {
        state := SearchComplete;
      }
      mtuMax := link;
    }

    /** The probing part of `_send_new_packet` and `mtu_probeify_packet`: data packet `n`, of `ipSize` bytes
        with its IP and UDP headers, is padded to the size wanted, if that takes a byte of padding size. */
    method SendNew(n: nat, ipSize: int, data: bool, tlp: bool) returns (padding: int)
      requires Valid() && n !in probes && ipSize <= mtu
      modifies this`probeCount, this`probeWanted, this`probes
      ensures Valid() && 0 <= padding <= MAX_PADDING
      ensures n in probes <==> old(probeWanted) && !tlp && data && probeSize - ipSize <= MAX_PADDING
      ensures n in probes ==> ipSize + padding == probeSize == probes[n] && Left() < old(Left())
      ensures n !in probes ==> padding == 0 && probes == old(probes) && probeWanted == old(probeWanted) && probeCount == old(probeCount)
    {
      padding := 0;
      if probeWanted && !tlp && data {
        var size := probeSize - ipSize;
        if !(size < 0 || size > MAX_PADDING) {
          padding := size;
          probes := probes[n := ipSize + size];
          probeCount := probeCount + 1;
          probeWanted := false;
        }
      }
    }

    /** `mtu_unprobeify_packet`: a probe is lost. */
    method Lost(n: nat)
      requires Valid() && n in probes
      modifies this`state, this`probeWanted, this`probes
      ensures Valid() && probes == map[] && Left() <= old(Left())
      ensures state == if probeCount >= MAX_PROBES then SearchComplete else Search
    {
      probes := probes - {n};
      if state.Search? {
        if probeCount >= MAX_PROBES {
          state := SearchComplete;
        } else {
          probeWanted := true;
        }
      }
    }

    /** The MTU part of `ack_packet`: an acknowledged probe proves exactly the size it was padded to, the first
        acknowledgement of any packet proves the base. */
    method Acked(n: nat)
      requires Valid()
      modifies this
      ensures Valid() && n !in probes && mtuMax == old(mtuMax)
      ensures n in old(probes) ==> mtu == old(probes)[n] && Left() < old(Left())
      ensures n !in old(probes) ==> mtu == old(mtu) && probes == old(probes)
      ensures mtu >= old(mtu)
    {
      assert if n in probes then probes - {n} == map[] else probes - {n} == probes;
      if state.Search? && probeCount > 0 && n in probes {
        probeCount := 0;
        mtu := probeSize;
        if probeSize == mtuMax {
          state := SearchComplete;
        } else {
          probeSize := probeSize + MTU_STEP;
          if probeSize >= mtuMax {
            probeSize := mtuMax;
          }
          probeWanted := true;
        }
      }
      if state.Base? || state.Error? {
        state := Search;
        probeWanted := true;
      }
      probes := probes - {n};
    }

    /** The MTU in use stays within the link's exactly if the link carries the base size: on a smaller link
        the search is off and the base is used all the same. */
    lemma WithinLink()
      requires Valid()
      ensures mtu <= mtuMax <==> mtuMax >= MTU_BASE
      ensures mtuMax < MTU_BASE ==> mtu == MTU_BASE && !state.Search?
    {
    }

    /** There is never more than one probe on its way, and none while another is wanted. */
    lemma OneProbe()
      requires Valid()
      ensures |probes| + (if probeWanted then 1 else 0) <= 1
      ensures state.Search? <==> |probes| + (if probeWanted then 1 else 0) == 1
    {
      if probes != map[] {
        var n :| n in probes;
        assert probes == map[n := probeSize];
        assert |map[n := probeSize]| == 1;
      }
    }
  }
}
