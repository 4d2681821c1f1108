/**
  Port probing of one host: the TCP-connect probe over a port list
  (`escanear_puertos`) and the deep scan through nmap (`escaneo_avanzado`).
*/
module PortScan {
  import opened Common

  /** What one `connect_ex` attempt gives: the error number it returned, or an exception. */
  datatype ConnectOutcome = Returned(code: int) | Raised

  /** A port counts as open when `connect_ex` returned 0. */
  predicate Connected(o: ConnectOutcome) {
    o == Returned(0)
  }

  /** The ports of `ports`, in order, whose connect returned 0. */
  function OpenPorts(ip: string, ports: seq<nat>, connect: (string, nat) -> ConnectOutcome): seq<nat>
    decreases |ports|
  {
    if ports == [] then []
    else
      var p := ports[|ports| - 1];
      OpenPorts(ip, ports[..|ports| - 1], connect) + if Connected(connect(ip, p)) then [p] else []
  }

  /**
    `escanear_puertos(ip, puertos)`: one connect per port; a port whose
    connect returned 0 is appended, an exception skips the port.
  */
  method ScanPorts(ip: string, ports: seq<nat>, connect: (string, nat) -> ConnectOutcome) returns (open: seq<nat>)
    ensures open == OpenPorts(ip, ports, connect)
  {
    open := [];
    for i := 0 to |ports|
      invariant open == OpenPorts(ip, ports[..i], connect)
    {
      var port := ports[i];
      assert ports[..i + 1][..i] == ports[..i];
      match connect(ip, port)
      case Raised =>
        continue;
      case Returned(code) =>
        if code == 0 {
          open := open + [port];
        }
    }
    assert ports[..|ports|] == ports;
  }

  /**
    The open ports are the ordered subsequence of the requested ports picked
    by exactly the positions whose connect returned 0: `idx` lists those
    positions in increasing order and maps them onto the result.
  */
  lemma {:induction false} OpenPortsPositions(ip: string, ports: seq<nat>, connect: (string, nat) -> ConnectOutcome)
    returns (idx: seq<nat>)
    ensures |idx| == |OpenPorts(ip, ports, connect)|
    ensures forall k :: 0 <= k < |idx| ==> idx[k] < |ports| && ports[idx[k]] == OpenPorts(ip, ports, connect)[k]
    ensures forall k, l :: 0 <= k < l < |idx| ==> idx[k] < idx[l]
    ensures forall i :: 0 <= i < |ports| ==> (i in idx <==> Connected(connect(ip, ports[i])))
    decreases |ports|
  {
    if ports == [] {
      idx := [];
    } else {
      var n := |ports| - 1;
      var prev := OpenPortsPositions(ip, ports[..n], connect);
      var before := OpenPorts(ip, ports[..n], connect);
      var last: seq<nat> := if Connected(connect(ip, ports[n])) then [n] else [];
      idx := prev + last;
      assert forall i :: 0 <= i < n ==> ports[..n][i] == ports[i];
      PositionsExtend(ip, ports, connect, prev, last);
    }
  }

  /** The inductive step of `OpenPortsPositions`: the last position is added when its connect returned 0. */
  lemma PositionsExtend(ip: string, ports: seq<nat>, connect: (string, nat) -> ConnectOutcome, prev: seq<nat>, last: seq<nat>)
    requires |ports| > 0
    requires last == if Connected(connect(ip, ports[|ports| - 1])) then [|ports| - 1] else []
    requires |prev| == |OpenPorts(ip, ports[..|ports| - 1], connect)|
    requires forall k :: 0 <= k < |prev| ==> prev[k] < |ports| - 1 && ports[prev[k]] == OpenPorts(ip, ports[..|ports| - 1], connect)[k]
    requires forall k, l :: 0 <= k < l < |prev| ==> prev[k] < prev[l]
    requires forall i :: 0 <= i < |ports| - 1 ==> (i in prev <==> Connected(connect(ip, ports[i])))
    ensures |prev + last| == |OpenPorts(ip, ports, connect)|
    ensures forall k :: 0 <= k < |prev + last| ==> (prev + last)[k] < |ports| && ports[(prev + last)[k]] == OpenPorts(ip, ports, connect)[k]
    ensures forall k, l :: 0 <= k < l < |prev + last| ==> (prev + last)[k] < (prev + last)[l]
    ensures forall i :: 0 <= i < |ports| ==> (i in prev + last <==> Connected(connect(ip, ports[i])))
  {
    var n := |ports| - 1;
    var idx := prev + last;
    var before := OpenPorts(ip, ports[..n], connect);
    var open := OpenPorts(ip, ports, connect);
    assert open == before + if Connected(connect(ip, ports[n])) then [ports[n]] else [];
    assert n !in prev;
    if Connected(connect(ip, ports[n])) {
      forall k | 0 <= k < |idx|
        ensures idx[k] < |ports| && ports[idx[k]] == open[k]
      {
        if k < |prev| {
          assert idx[k] == prev[k] && open[k] == before[k];
        }
      }
    } else {
      assert idx == prev && open == before;
    }
  }

  /** A port is reported open exactly when it was requested and its connect returned 0. */
  lemma OpenPortsMembership(ip: string, ports: seq<nat>, connect: (string, nat) -> ConnectOutcome, p: nat)
    ensures p in OpenPorts(ip, ports, connect) <==> p in ports && Connected(connect(ip, p))
  {
    var idx := OpenPortsPositions(ip, ports, connect);
    var open := OpenPorts(ip, ports, connect);
    if p in open {
      var k :| 0 <= k < |open| && open[k] == p;
      assert ports[idx[k]] == p;
      assert idx[k] in idx;
    }
    if p in ports && Connected(connect(ip, p)) {
      var i :| 0 <= i < |ports| && ports[i] == p;
      assert i in idx;
      var k :| 0 <= k < |idx| && idx[k] == i;
      assert open[k] == p;
    }
  }

  /** One port entry of nmap's per-host `tcp` table. */
  datatype NmapPort = NmapPort(port: nat, state: string, name: string)

  /** What the deep-scan collaborator gives for one host. */
  datatype NmapOutcome =
    | ScannerMissing                               // `nmap.PortScanner()` raised (before the `try`)
    | ScanRaised                                   // `nm.scan(...)` or a lookup inside the `try` raised
    | Scanned(listed: bool, tcp: Option<seq<NmapPort>>) // host among `all_hosts()`; its `tcp` table, if any

  /** `escaneo_avanzado`'s result: open ports and their service names. */
  datatype DeepInfo = DeepInfo(openPorts: seq<nat>, services: seq<string>)

  const NoPorts := DeepInfo([], [])

  /** The entries of the `tcp` table whose state is `open`, in table order. */
  function OpenEntries(tcp: seq<NmapPort>): seq<NmapPort>
    decreases |tcp|
  {
    if tcp == [] then []
    else
      var e := tcp[|tcp| - 1];
      OpenEntries(tcp[..|tcp| - 1]) + if e.state == "open" then [e] else []
  }

  /** The port of each entry, in order. */
  function PortsOf(entries: seq<NmapPort>): (r: seq<nat>)
    ensures |r| == |entries|
    ensures forall k :: 0 <= k < |r| ==> r[k] == entries[k].port
    decreases |entries|
  {
    if entries == [] then [] else PortsOf(entries[..|entries| - 1]) + [entries[|entries| - 1].port]
  }

  /** The service name of each entry, in order. */
  function NamesOf(entries: seq<NmapPort>): (r: seq<string>)
    ensures |r| == |entries|
    ensures forall k :: 0 <= k < |r| ==> r[k] == entries[k].name
    decreases |entries|
  {
    if entries == [] then [] else NamesOf(entries[..|entries| - 1]) + [entries[|entries| - 1].name]
  }

  /** What `escaneo_avanzado` returns; `None` when the exception escapes to the caller. */
  function DeepScanResult(outcome: NmapOutcome): Option<DeepInfo> {
    match outcome
    case ScannerMissing => None
    case ScanRaised => Some(NoPorts)
    case Scanned(listed, tcp) =>
      if !listed || tcp.None? then Some(NoPorts)
      else Some(DeepInfo(PortsOf(OpenEntries(tcp.value)), NamesOf(OpenEntries(tcp.value))))
  }

  /**
    `escaneo_avanzado(ip)`: collects the open entries of the host's `tcp`
    table; any failure inside the `try` (including a missing `tcp` table)
    degrades to empty lists, while a missing scanner escapes as `None`.
  */
  method DeepScan(outcome: NmapOutcome) returns (info: Option<DeepInfo>)
    ensures info == DeepScanResult(outcome)
  {
    match outcome
    case ScannerMissing =>
      info := None;
    case ScanRaised =>
      info := Some(NoPorts);
    case Scanned(listed, tcp) =>
      if !listed || tcp.None? {
        info := Some(NoPorts);
      } else {
        var table := tcp.value;
        var ports: seq<nat> := [];
        var names: seq<string> := [];
        for i := 0 to |table|
          invariant ports == PortsOf(OpenEntries(table[..i]))
          invariant names == NamesOf(OpenEntries(table[..i]))
        {
          var entry := table[i];
          OpenEntriesStep(table, i);
          if entry.state == "open" {
            ports := ports + [entry.port];
            names := names + [entry.name];
            EntriesAppend(OpenEntries(table[..i]), entry);
          } else {
            assert OpenEntries(table[..i + 1]) == OpenEntries(table[..i]);
          }
        }
        assert table[..|table|] == table;
        info := Some(DeepInfo(ports, names));
      }
  }

  /** One more table entry adds itself to the open entries exactly when its state is `open`. */
  lemma OpenEntriesStep(table: seq<NmapPort>, i: nat)
    requires i < |table|
    ensures OpenEntries(table[..i + 1]) == OpenEntries(table[..i]) + if table[i].state == "open" then [table[i]] else []
  {
    assert table[..i + 1][..i] == table[..i];
  }

  /** Appending an entry appends its port and its name. */
  lemma EntriesAppend(entries: seq<NmapPort>, e: NmapPort)
    ensures PortsOf(entries + [e]) == PortsOf(entries) + [e.port]
    ensures NamesOf(entries + [e]) == NamesOf(entries) + [e.name]
  {
    assert (entries + [e])[..|entries|] == entries;
  }

  /**
    A deep scan reports a port open exactly when the host is listed, has a
    `tcp` table, and some entry for that port is in state `open`; in every
    other case it reports nothing, and one service name is given per open port.
  */
  lemma {:induction false} DeepScanReports(outcome: NmapOutcome, p: nat)
    requires outcome != ScannerMissing
    ensures DeepScanResult(outcome).Some?
    ensures |DeepScanResult(outcome).value.services| == |DeepScanResult(outcome).value.openPorts|
    ensures p in DeepScanResult(outcome).value.openPorts <==>
      outcome.Scanned? && outcome.listed && outcome.tcp.Some? &&
      exists e :: e in outcome.tcp.value && e.port == p && e.state == "open"
  {
    if outcome.Scanned? && outcome.listed && outcome.tcp.Some? {
      var tcp := outcome.tcp.value;
      OpenEntriesMembership(tcp);
      var open := OpenEntries(tcp);
      var ports := DeepScanResult(outcome).value.openPorts;
      if p in ports {
        var k :| 0 <= k < |ports| && ports[k] == p;
        assert open[k] in open;
      }
      if exists e :: e in tcp && e.port == p && e.state == "open" {
        var e :| e in tcp && e.port == p && e.state == "open";
        assert e in open;
        var k :| 0 <= k < |open| && open[k] == e;
        assert ports[k] == p;
      }
    }
  }

  /** An entry is among the open entries exactly when it is in the table with state `open`. */
  lemma {:induction false} OpenEntriesMembership(tcp: seq<NmapPort>)
    ensures forall e :: e in OpenEntries(tcp) <==> e in tcp && e.state == "open"
    decreases |tcp|
  {
    if tcp != [] {
      var n := |tcp| - 1;
      OpenEntriesMembership(tcp[..n]);
      assert tcp == tcp[..n] + [tcp[n]];
    }
  }
}
