/** Service ports (syte/deployment.py, `_next_port`). */
module Ports {
  const FIRST_PORT := 3000
  const PREVIEW_START := 4000
  const PREVIEW_END := 4999

  /** Pigeonhole: if every port from 3000 up to a point is in use, there are that many projects. */
  lemma {:induction false} RunOfUsedPorts(ports: seq<int>, port: int)
    requires port >= FIRST_PORT && forall q :: FIRST_PORT <= q < port ==> q in ports
    ensures port - FIRST_PORT <= |ports|
    decreases |ports|
  {
    if port > FIRST_PORT {
      assert port - 1 in ports;
      var k :| 0 <= k < |ports| && ports[k] == port - 1;
      var others := ports[..k] + ports[k + 1..];
      forall q | FIRST_PORT <= q < port - 1
        ensures q in others
      {
        assert q in ports;
        var i :| 0 <= i < |ports| && ports[i] == q;
        assert others[if i < k then i else i - 1] == q;
      }
      RunOfUsedPorts(others, port - 1);
    }
  }

  /** The least free port from 3000; it is at most 3000 plus the number of existing projects. */
  method NextPort(existing: seq<int>) returns (port: int)
    ensures FIRST_PORT <= port <= FIRST_PORT + |existing|
    ensures port !in existing
    ensures forall q :: FIRST_PORT <= q < port ==> q in existing
  {
    var used := set p | p in existing;
    port := FIRST_PORT;
    while port in used
      invariant port >= FIRST_PORT && forall q :: FIRST_PORT <= q < port ==> q in existing
      decreases FIRST_PORT + |existing| - port
    {
      RunOfUsedPorts(existing, port + 1);
      port := port + 1;
    }
    RunOfUsedPorts(existing, port);
  }

  /** The project table under creates and removes, one after the other. */
  class ProjectTable {
    var ports: seq<int>     // one per live project, oldest first
    ghost var peak: nat     // the largest number of projects that were ever live at once

    constructor ()
      ensures Valid() && ports == [] && peak == 0
    {
      ports, peak := [], 0;
    }

    /** All ports are distinct, and below 3000 plus the peak. */
    ghost predicate Valid()
      reads this
    {
      && |ports| <= peak
      && (forall i, j :: 0 <= i < j < |ports| ==> ports[i] != ports[j])
      && (forall i :: 0 <= i < |ports| ==> FIRST_PORT <= ports[i] < FIRST_PORT + peak)
    }

    method Create() returns (port: int)
      requires Valid()
      modifies this
      ensures Valid()
      ensures ports == old(ports) + [port] && port !in old(ports)
      ensures FIRST_PORT <= port && forall q :: FIRST_PORT <= q < port ==> q in old(ports)
      ensures peak == if |ports| <= old(peak) then old(peak) else |ports|
    {
      port := NextPort(ports);
      ports := ports + [port];
      peak := if |ports| <= peak then peak else |ports|;
    }

    method Remove(i: nat)
      requires Valid() && i < |ports|
      modifies this
      ensures Valid()
      ensures ports == old(ports[..i] + ports[i + 1..]) && peak == old(peak)
    {
      ports := ports[..i] + ports[i + 1..];
    }

    /** With at most 1000 projects ever live at once no service port is a preview port. */
    lemma NoPreviewPort(port: int)
      requires Valid() && peak <= 1000 && port in ports
      ensures !(PREVIEW_START <= port <= PREVIEW_END)
    {
      var i :| 0 <= i < |ports| && ports[i] == port;
    }
  }
}
