/**
  The scan task (`tarea_escaneo`): for every host the ARP sweep found, probe
  its ports, look up its vendor, decide whether it may be a camera and, if
  so, test the candidate URLs in order until one yields a frame.
*/
module ScanTask {
  import opened Common
  import opened Text
  import opened ScanConfig
  import opened PortScan
  import opened Candidates
  import opened AccessSearch

  /** One answer to the ARP sweep: `{'ip', 'mac'}`. */
  datatype DiscoveredHost = DiscoveredHost(ip: string, mac: string)

  /** What `escanear_red` gives: the hosts that answered, or an exception (which ends the scan). */
  datatype Sweep = SweepFailed | Swept(hosts: seq<DiscoveredHost>)

  /** The outside world the scan consults, one oracle per collaborator. */
  datatype Probes = Probes(
    connect: (string, nat) -> ConnectOutcome,  // socket `connect_ex((ip, port))`
    nmap: string -> NmapOutcome,               // nmap's answer for one host
    vendor: string -> Option<string>,          // MAC vendor lookup; `None` when it raised
    capture: string -> Capture)                // opening a capture on a URL and reading a frame

  /** The record kept for one host in `resultados`. */
  datatype HostReport = HostReport(
    ip: string, mac: string, openPorts: seq<nat>, vendor: string,
    possibleCamera: bool, cameraUrl: Option<string>)

  /** One entry of `camaras_validas`. */
  datatype ConfirmedCamera = ConfirmedCamera(ip: string, url: string)

  /** The scan's effect: the host reports, the confirmed cameras, and whether it ran to the end. */
  datatype ScanResult = ScanResult(reports: seq<HostReport>, cameras: seq<ConfirmedCamera>, completed: bool)

  /** The vendor text recorded when the lookup raises. */
  const UnknownVendor := "Desconocido"

  /** `any(p in puertos for p in CAM_PORTS)`. */
  predicate PossibleCamera(ports: seq<nat>) {
    exists k :: 0 <= k < |CamPorts| && CamPorts[k] in ports
  }

  /** `[p for p in puertos if p in CAM_PORTS]`, order and repetitions kept. */
  function CameraPorts(ports: seq<nat>): seq<nat>
    decreases |ports|
  {
    if ports == [] then []
    else
      var p := ports[|ports| - 1];
      CameraPorts(ports[..|ports| - 1]) + if p in CamPorts then [p] else []
  }

  /** The open ports of a host, or `None` when the probe's exception escapes (a missing nmap scanner). */
  function HostPorts(h: DiscoveredHost, advanced: bool, probes: Probes): Option<seq<nat>> {
    if advanced then
      match DeepScanResult(probes.nmap(h.ip))
      case None => None
      case Some(info) => Some(info.openPorts)
    else Some(OpenPorts(h.ip, CamPorts, probes.connect))
  }

  /** The URL the stream tests settle on: the first candidate that yields a frame. */
  function FirstWorking(urls: seq<string>, capture: string -> Capture): Option<string> {
    match FirstHit(urls, capture)
    case None => None
    case Some(k) => Some(urls[k])
  }

  /** The report of one host whose ports are known. */
  function Report(h: DiscoveredHost, ports: seq<nat>, probes: Probes): HostReport {
    var vendor := match probes.vendor(h.mac) case None => UnknownVendor case Some(v) => v;
    var possible := PossibleCamera(ports);
    var url := if possible then FirstWorking(CandidateUrls(h.ip, CameraPorts(ports), DefaultCreds), probes.capture) else None;
    HostReport(h.ip, h.mac, ports, vendor, possible, url)
  }

  /** The camera entry one report contributes: one when it recorded a URL, none otherwise. */
  function CameraOf(rep: HostReport): seq<ConfirmedCamera> {
    match rep.cameraUrl
    case None => []
    case Some(u) => [ConfirmedCamera(rep.ip, u)]
  }

  /** The confirmed cameras a list of reports yields, in report order. */
  function CamerasOf(reports: seq<HostReport>): seq<ConfirmedCamera>
    decreases |reports|
  {
    if reports == [] then [] else CamerasOf(reports[..|reports| - 1]) + CameraOf(reports[|reports| - 1])
  }

  /** One iteration of the host loop; once the scan has ended, nothing more happens. */
  function Step(r: ScanResult, h: DiscoveredHost, advanced: bool, probes: Probes): ScanResult {
    if !r.completed then r
    else
      match HostPorts(h, advanced, probes)
      case None => r.(completed := false)
      case Some(ports) =>
        var rep := Report(h, ports, probes);
        ScanResult(r.reports + [rep], r.cameras + CameraOf(rep), true)
  }

  /** The scan over the swept hosts, host by host; the first escaping exception ends it. */
  function ScanHosts(hosts: seq<DiscoveredHost>, advanced: bool, probes: Probes): ScanResult
    decreases |hosts|
  {
    if hosts == [] then ScanResult([], [], true)
    else Step(ScanHosts(hosts[..|hosts| - 1], advanced, probes), hosts[|hosts| - 1], advanced, probes)
  }

  /** The whole scan: nothing is reported when the sweep itself raises. */
  function Scan(sweep: Sweep, advanced: bool, probes: Probes): ScanResult {
    match sweep
    case SweepFailed => ScanResult([], [], false)
    case Swept(hosts) => ScanHosts(hosts, advanced, probes)
  }

  /**
    `tarea_escaneo`: the loop over the swept hosts, with the port probe
    chosen by the advanced flag and the first-success search over the
    candidate URLs of every possible camera.
  */
  method RunScan(sweep: Sweep, advanced: bool, probes: Probes) returns (result: ScanResult)
    ensures result == Scan(sweep, advanced, probes)
  {
    if sweep.SweepFailed? {
      return ScanResult([], [], false);
    }
    var hosts := sweep.hosts;
    var reports: seq<HostReport> := [];
    var cameras: seq<ConfirmedCamera> := [];
    for i := 0 to |hosts|
      invariant ScanHosts(hosts[..i], advanced, probes) == ScanResult(reports, cameras, true)
    {
      var h := hosts[i];
      assert hosts[..i + 1][..i] == hosts[..i];
      var ports: seq<nat>;
      if advanced {
        var info := DeepScan(probes.nmap(h.ip));
        if info.None? {
          AbortSticks(hosts, i + 1, advanced, probes);
          return ScanResult(reports, cameras, false);
        }
        ports := info.value.openPorts;
      } else {
        ports := ScanPorts(h.ip, CamPorts, probes.connect);
      }
      var rep := ProbeHost(h, ports, probes);
      reports := reports + [rep];
      cameras := cameras + CameraOf(rep);
    }
    assert hosts[..|hosts|] == hosts;
    return ScanResult(reports, cameras, true);
  }

  /**
    The body of the host loop once the ports are known: the vendor lookup,
    the camera-port test and, for a possible camera, the first-success search
    over its candidate URLs.
  */
  method ProbeHost(h: DiscoveredHost, ports: seq<nat>, probes: Probes) returns (rep: HostReport)
    ensures rep == Report(h, ports, probes)
  {
    var vendor := match probes.vendor(h.mac) case None => UnknownVendor case Some(v) => v;
    var possible := PossibleCamera(ports);
    var url: Option<string> := None;
    if possible {
      var urls := BuildUrls(h.ip, CameraPorts(ports), DefaultCreds);
      var found, tested := ProbeCandidates(urls, probes.capture);
      url := found;
    }
    rep := HostReport(h.ip, h.mac, ports, vendor, possible, url);
  }

  /** Once a host's probe has ended the scan, the later hosts change nothing. */
  lemma {:induction false} AbortSticks(hosts: seq<DiscoveredHost>, n: nat, advanced: bool, probes: Probes)
    requires n <= |hosts|
    requires !ScanHosts(hosts[..n], advanced, probes).completed
    ensures ScanHosts(hosts, advanced, probes) == ScanHosts(hosts[..n], advanced, probes)
    decreases |hosts|
  {
    if n < |hosts| {
      var m := |hosts| - 1;
      assert hosts[..m][..n] == hosts[..n];
      AbortSticks(hosts[..m], n, advanced, probes);
    } else {
      assert hosts[..n] == hosts;
    }
  }

  /** A port survives the camera-port filter exactly when it is open and a camera port. */
  lemma {:induction false} CameraPortsMembership(ports: seq<nat>, p: nat)
    ensures p in CameraPorts(ports) <==> p in ports && p in CamPorts
    decreases |ports|
  {
    if ports != [] {
      var n := |ports| - 1;
      CameraPortsMembership(ports[..n], p);
      assert ports == ports[..n] + [ports[n]];
    }
  }

  /** URLs are built for a host exactly when it is a possible camera. */
  lemma CameraPortsWhenPossible(ports: seq<nat>)
    ensures CameraPorts(ports) != [] <==> PossibleCamera(ports)
  {
    if CameraPorts(ports) != [] {
      var p := CameraPorts(ports)[0];
      CameraPortsMembership(ports, p);
      var k :| 0 <= k < |CamPorts| && CamPorts[k] == p;
    }
    if PossibleCamera(ports) {
      var k :| 0 <= k < |CamPorts| && CamPorts[k] in ports;
      CameraPortsMembership(ports, CamPorts[k]);
    }
  }

  /** The URL the search settles on is readable, and every URL before it is not; no URL means none is readable. */
  lemma FirstWorkingMeaning(urls: seq<string>, capture: string -> Capture)
    ensures FirstWorking(urls, capture).Some? ==>
      exists k :: 0 <= k < |urls| && urls[k] == FirstWorking(urls, capture).value &&
        StreamReadable(capture(urls[k])) &&
        forall j :: 0 <= j < k ==> !StreamReadable(capture(urls[j]))
    ensures FirstWorking(urls, capture).None? ==> forall k :: 0 <= k < |urls| ==> !StreamReadable(capture(urls[k]))
  {
    match FirstHit(urls, capture)
    case None =>
    case Some(k) =>
      assert urls[k] == FirstWorking(urls, capture).value;
  }

  /**
    A host's report keeps its address, MAC and open ports, gives the vendor
    lookup's answer or `Desconocido`, and flags a possible camera exactly
    when one of the open ports is a camera port.
  */
  lemma ReportFields(h: DiscoveredHost, ports: seq<nat>, probes: Probes)
    ensures var r := Report(h, ports, probes);
      r.ip == h.ip && r.mac == h.mac && r.openPorts == ports &&
      r.vendor == (if probes.vendor(h.mac).Some? then probes.vendor(h.mac).value else "Desconocido") &&
      (r.possibleCamera <==> exists p :: p in ports && p in CamPorts)
  {
    PossibleCameraMeaning(ports);
  }

  /** `url` is the `k`-th candidate, its stream yields a frame, and no earlier candidate's does. */
  predicate FirstReadableAt(urls: seq<string>, capture: string -> Capture, url: string, k: int) {
    0 <= k < |urls| && urls[k] == url && StreamReadable(capture(urls[k])) &&
    forall j :: 0 <= j < k ==> !StreamReadable(capture(urls[j]))
  }

  /**
    A URL is recorded only for a possible camera, and it is the first
    candidate, in dictionary order, whose stream yields a frame.
  */
  lemma ReportUrlFound(h: DiscoveredHost, ports: seq<nat>, probes: Probes)
    requires Report(h, ports, probes).cameraUrl.Some?
    ensures Report(h, ports, probes).possibleCamera
    ensures exists k :: FirstReadableAt(CandidateUrls(h.ip, CameraPorts(ports), DefaultCreds), probes.capture,
                                        Report(h, ports, probes).cameraUrl.value, k)
  {
    var urls := CandidateUrls(h.ip, CameraPorts(ports), DefaultCreds);
    var k := FirstHit(urls, probes.capture).value;
    assert FirstReadableAt(urls, probes.capture, Report(h, ports, probes).cameraUrl.value, k);
  }

  /** A possible camera without a recorded URL has no candidate whose stream yields a frame. */
  lemma ReportUrlMissing(h: DiscoveredHost, ports: seq<nat>, probes: Probes)
    ensures var r := Report(h, ports, probes);
      var urls := CandidateUrls(h.ip, CameraPorts(ports), DefaultCreds);
      r.possibleCamera && r.cameraUrl.None? ==> forall k :: 0 <= k < |urls| ==> !StreamReadable(probes.capture(urls[k]))
  {
    var urls := CandidateUrls(h.ip, CameraPorts(ports), DefaultCreds);
    FirstWorkingMeaning(urls, probes.capture);
  }

  /** A host may be a camera exactly when one of its open ports is a camera port. */
  lemma PossibleCameraMeaning(ports: seq<nat>)
    ensures PossibleCamera(ports) <==> exists p :: p in ports && p in CamPorts
  {
    if PossibleCamera(ports) {
      var k :| 0 <= k < |CamPorts| && CamPorts[k] in ports;
      assert CamPorts[k] in ports && CamPorts[k] in CamPorts;
    }
    if exists p :: p in ports && p in CamPorts {
      var p :| p in ports && p in CamPorts;
      var k :| 0 <= k < |CamPorts| && CamPorts[k] == p;
    }
  }

  /**
    The shape of the scan's result: one report per host, in sweep order,
    for a prefix of the hosts; all of them when the scan completes; and the
    confirmed cameras are exactly the reports that recorded a URL.
  */
  lemma {:induction false} ScanHostsShape(hosts: seq<DiscoveredHost>, advanced: bool, probes: Probes)
    ensures var r := ScanHosts(hosts, advanced, probes);
      |r.reports| <= |hosts| && (r.completed ==> |r.reports| == |hosts|)
    ensures var r := ScanHosts(hosts, advanced, probes);
      forall k :: 0 <= k < |r.reports| ==> r.reports[k].ip == hosts[k].ip && r.reports[k].mac == hosts[k].mac
    ensures var r := ScanHosts(hosts, advanced, probes);
      r.cameras == CamerasOf(r.reports)
    decreases |hosts|
  {
    if hosts != [] {
      var n := |hosts| - 1;
      ScanHostsShape(hosts[..n], advanced, probes);
      StepShape(hosts, ScanHosts(hosts[..n], advanced, probes), advanced, probes);
    }
  }

  /** The inductive step of `ScanHostsShape`. */
  lemma StepShape(hosts: seq<DiscoveredHost>, prev: ScanResult, advanced: bool, probes: Probes)
    requires |hosts| > 0
    requires |prev.reports| <= |hosts| - 1 && (prev.completed ==> |prev.reports| == |hosts| - 1)
    requires forall k :: 0 <= k < |prev.reports| ==> prev.reports[k].ip == hosts[k].ip && prev.reports[k].mac == hosts[k].mac
    requires prev.cameras == CamerasOf(prev.reports)
    ensures var r := Step(prev, hosts[|hosts| - 1], advanced, probes);
      |r.reports| <= |hosts| && (r.completed ==> |r.reports| == |hosts|)
    ensures var r := Step(prev, hosts[|hosts| - 1], advanced, probes);
      forall k :: 0 <= k < |r.reports| ==> r.reports[k].ip == hosts[k].ip && r.reports[k].mac == hosts[k].mac
    ensures var r := Step(prev, hosts[|hosts| - 1], advanced, probes);
      r.cameras == CamerasOf(r.reports)
  {
    var h := hosts[|hosts| - 1];
    if prev.completed && HostPorts(h, advanced, probes).Some? {
      var rep := Report(h, HostPorts(h, advanced, probes).value, probes);
      var reports := prev.reports + [rep];
      assert Step(prev, h, advanced, probes) == ScanResult(reports, prev.cameras + CameraOf(rep), true);
      assert reports[..|reports| - 1] == prev.reports;
      assert CamerasOf(reports) == prev.cameras + CameraOf(rep);
      forall k | 0 <= k < |reports|
        ensures reports[k].ip == hosts[k].ip && reports[k].mac == hosts[k].mac
      {
        if k < |prev.reports| {
          assert reports[k] == prev.reports[k];
        } else {
          assert reports[k] == rep;
        }
      }
    } else {
      assert Step(prev, h, advanced, probes).reports == prev.reports;
      assert Step(prev, h, advanced, probes).cameras == prev.cameras;
    }
  }

  /**
    The scan stops early exactly when the advanced scan is on and some host's
    scanner could not be created; it then stops at the first such host, whose
    position is the number of reports made.
  */
  lemma {:induction false} ScanHostsStops(hosts: seq<DiscoveredHost>, advanced: bool, probes: Probes)
    ensures ScanHosts(hosts, advanced, probes).completed <==>
      !advanced || forall k :: 0 <= k < |hosts| ==> probes.nmap(hosts[k].ip) != ScannerMissing
    ensures var r := ScanHosts(hosts, advanced, probes);
      !r.completed ==> (|r.reports| < |hosts| && probes.nmap(hosts[|r.reports|].ip) == ScannerMissing &&
        forall k :: 0 <= k < |r.reports| ==> probes.nmap(hosts[k].ip) != ScannerMissing)
    decreases |hosts|
  {
    if hosts != [] {
      var n := |hosts| - 1;
      var prefix := hosts[..n];
      ScanHostsStops(prefix, advanced, probes);
      ScanHostsShape(prefix, advanced, probes);
      assert forall k :: 0 <= k < n ==> prefix[k] == hosts[k];
      var prev := ScanHosts(prefix, advanced, probes);
      assert ScanHosts(hosts, advanced, probes) == Step(prev, hosts[n], advanced, probes);
      StepStops(hosts, prev, advanced, probes);
    }
  }

  /** The inductive step of `ScanHostsStops`. */
  lemma StepStops(hosts: seq<DiscoveredHost>, prev: ScanResult, advanced: bool, probes: Probes)
    requires |hosts| > 0
    requires prev.completed ==> |prev.reports| == |hosts| - 1
    requires prev.completed <==>
      !advanced || forall k :: 0 <= k < |hosts| - 1 ==> probes.nmap(hosts[k].ip) != ScannerMissing
    requires !prev.completed ==> (|prev.reports| < |hosts| - 1 && probes.nmap(hosts[|prev.reports|].ip) == ScannerMissing &&
        forall k :: 0 <= k < |prev.reports| ==> probes.nmap(hosts[k].ip) != ScannerMissing)
    ensures Step(prev, hosts[|hosts| - 1], advanced, probes).completed <==>
      !advanced || forall k :: 0 <= k < |hosts| ==> probes.nmap(hosts[k].ip) != ScannerMissing
    ensures var r := Step(prev, hosts[|hosts| - 1], advanced, probes);
      !r.completed ==> (|r.reports| < |hosts| && probes.nmap(hosts[|r.reports|].ip) == ScannerMissing &&
        forall k :: 0 <= k < |r.reports| ==> probes.nmap(hosts[k].ip) != ScannerMissing)
  {
    var n := |hosts| - 1;
    if advanced {
      assert HostPorts(hosts[n], advanced, probes).None? <==> probes.nmap(hosts[n].ip) == ScannerMissing;
    }
  }

  /** A camera is confirmed exactly when some report recorded that URL for that address. */
  lemma {:induction false} CamerasOfMembership(reports: seq<HostReport>, c: ConfirmedCamera)
    ensures c in CamerasOf(reports) <==> exists k :: 0 <= k < |reports| && reports[k].ip == c.ip && reports[k].cameraUrl == Some(c.url)
    decreases |reports|
  {
    if reports != [] {
      var n := |reports| - 1;
      CamerasOfMembership(reports[..n], c);
      var last := reports[n];
      assert CamerasOf(reports) == CamerasOf(reports[..n]) + CameraOf(last);
      assert c in CameraOf(last) <==> last.ip == c.ip && last.cameraUrl == Some(c.url);
      assert forall k :: 0 <= k < n ==> reports[..n][k] == reports[k];
    }
  }

  /** The anonymous RTSP URL of a host's port 554. */
  function AnonymousRtsp(ip: string): string {
    "rtsp://" + ip + ":554/"
  }

  /**
    A host with only port 554 open whose stream answers only the anonymous
    RTSP URL is confirmed at that URL, but only as the 23rd candidate: the 22
    credential-bearing URLs before it are tested and fail first.
  */
  lemma AnonymousCameraFound(h: DiscoveredHost, probes: Probes)
    requires forall u :: StreamReadable(probes.capture(u)) <==> u == AnonymousRtsp(h.ip)
    ensures FirstHit(CandidateUrls(h.ip, [554], DefaultCreds), probes.capture) == Some(22)
    ensures Report(h, [554], probes).possibleCamera
    ensures Report(h, [554], probes).cameraUrl == Some(AnonymousRtsp(h.ip))
  {
    var urls := CandidateUrls(h.ip, [554], DefaultCreds);
    AnonymousCandidatePosition(h.ip, 554);
    assert Decimal(554) == "554" by {
      assert Decimal(55) == Decimal(5) + [Digit(5)];
    }
    assert urls[22] == AnonymousRtsp(h.ip);
    assert forall k :: 0 <= k < 22 ==> !StreamReadable(probes.capture(urls[k]));
    assert CamPorts[1] == 554;
    assert CameraPorts([554]) == [554] by {
      assert [554][..0] == [];
    }
    assert StreamReadable(probes.capture(urls[22]));
  }
}
