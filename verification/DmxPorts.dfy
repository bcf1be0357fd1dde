/** The output ports of an Art-Net node, whose fixed buffers are updated in
    place by `handle_dmx`. */
module DmxPorts {
  import opened Basics
  import opened DmxMerge
  import opened DmxTimeouts

  class OutputPort {
    const portAddr: int
    const enabled: bool
    var ipA: int
    var ipB: int
    var timeA: int
    var timeB: int
    const dataA: array<byte>
    const dataB: array<byte>
    const data: array<byte>
    var length: nat
    const mode: Mode

    predicate Valid() {
      dataA.Length == dataB.Length == data.Length == CHANNELS && dataA != dataB && dataA != data && dataB != data
    }

    /** What `handle_dmx` may change. */
    ghost function Footprint(): set<object> { {this, dataA, dataB, data} }

    function Abstract(): (p: Port)
      requires Valid()
      reads Footprint()
      ensures p.Valid()
    {
      Port(ipA, ipB, timeA, timeB, dataA[..], dataB[..], data[..], length, mode)
    }

    constructor (addr: int, on: bool, mergeMode: Mode)
      ensures Valid() && fresh(Footprint())
      ensures portAddr == addr && enabled == on && mode == mergeMode
      ensures Abstract().ipA == Abstract().ipB == 0
    {
      portAddr, enabled, mode := addr, on, mergeMode;
      ipA, ipB, timeA, timeB, length := 0, 0, 0, 0, 0;
      dataA := new byte[CHANNELS](_ => 0);
      dataB := new byte[CHANNELS](_ => 0);
      data := new byte[CHANNELS](_ => 0);
    }

    /** The body of the port loop, for a port that the packet is for. */
    method HandleDmx(e: Event)
      requires Valid() && e.Valid()
      modifies Footprint()
      ensures Abstract() == OnDmx(old(Abstract()), e)
    {
      var a, b, n := ipA, ipB, e.Len();
      CheckMergeTimeouts(e.now);
      if a == 0 && b == 0 {
        ipA, timeA, length := e.src, e.now, n;
        MemCpy(dataA, e.data, n);
        MemCpy(data, e.data, n);
      } else if a == e.src && b == 0 {
        timeA, length := e.now, n;
        MemCpy(dataA, e.data, n);
        MemCpy(data, e.data, n);
      } else if a == 0 && b == e.src {
        timeB, length := e.now, n;
        MemCpy(dataB, e.data, n);
        MemCpy(data, e.data, n);
      } else if a != e.src && b == 0 {
        ipB, timeB, length := e.src, e.now, n;
        MemCpy(dataB, e.data, n);
        MergeInto(n, dataB);
      } else if a == e.src && b != e.src {
        timeA, length := e.now, n;
        MemCpy(dataA, e.data, n);
        MergeInto(n, dataA);
      } else if a != e.src && b == e.src {
        timeB, length := e.now, n;
        MemCpy(dataB, e.data, n);
        MergeInto(n, dataB);
      }
    }

    method CheckMergeTimeouts(now: int)
      requires Valid()
      modifies this
      ensures Abstract() == CheckTimeouts(old(Abstract()), now)
      ensures ipA == Kept(old(ipA), old(timeA), now) && ipB == Kept(old(ipB), old(timeB), now)
    {
      if now - timeA > MERGE_TIMEOUT_SECONDS {
        ipA := 0;
      }
      if now - timeB > MERGE_TIMEOUT_SECONDS {
        ipB := 0;
      }
    }

    /** `merge`. */
    method MergeInto(n: nat, latest: array<byte>)
      requires Valid() && n <= CHANNELS && latest.Length == CHANNELS && latest != data
      modifies data
      ensures Abstract() == Merge(old(Abstract()), n, old(latest[..]))
    {
      if mode == HTP {
        for i := 0 to n
          invariant forall j :: 0 <= j < i ==> data[j] == Max(dataA[j], dataB[j])
          invariant forall j :: i <= j < CHANNELS ==> data[j] == old(data[j])
        {
          data[i] := Max(dataA[i], dataB[i]);
        }
        assert data[..] == Copy(old(data[..]), HighestOf(dataA[..], dataB[..]), n);
      } else {
        MemCpy(data, latest[..], n);
      }
    }
  }

  method MemCpy(dst: array<byte>, src: seq<byte>, n: nat)
    requires n <= dst.Length == |src|
    modifies dst
    ensures dst[..] == Copy(old(dst[..]), src, n)
  {
    forall i | 0 <= i < n { dst[i] := src[i]; }
  }

  ghost predicate Separate(ports: seq<OutputPort>) {
    && (forall i :: 0 <= i < |ports| ==> ports[i].Valid())
    && (forall i, j :: 0 <= i < j < |ports| ==> ports[i].Footprint() !! ports[j].Footprint())
  }

  ghost function Footprints(ports: seq<OutputPort>): set<object> {
    set p, o | p in ports && o in p.Footprint() :: o
  }

  /** `handle_dmx`: every enabled port with the packet's universe takes it, no
      other port changes. */
  method HandleDmxPacket(ports: seq<OutputPort>, universe: int, e: Event)
    requires Separate(ports) && e.Valid()
    modifies Footprints(ports)
    ensures forall i :: 0 <= i < |ports| ==>
              ports[i].Abstract() ==
              if ports[i].portAddr == universe && ports[i].enabled then OnDmx(old(ports[i].Abstract()), e)
              else old(ports[i].Abstract())
  {
    hide OnDmx;
    for i := 0 to |ports|
      invariant forall j :: 0 <= j < i ==>
                  ports[j].Abstract() ==
                  if ports[j].portAddr == universe && ports[j].enabled then OnDmx(old(ports[j].Abstract()), e)
                  else old(ports[j].Abstract())
      invariant forall j :: i <= j < |ports| ==> ports[j].Abstract() == old(ports[j].Abstract())
    {
      assert ports[i] in ports;
      if ports[i].portAddr == universe && ports[i].enabled {
        ports[i].HandleDmx(e);
      }
    }
  }
}
