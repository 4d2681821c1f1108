# ShadowCam core, modelled in Dafny

ShadowCam (`archivos/shadowcam2.py`) is a desktop tool that finds IP cameras on the local network. It works in five steps:

1. It offers the machine's non-loopback IPv4 interfaces and derives the /24 network to sweep.
2. It sweeps that network with ARP.
3. It probes each host's camera ports, with TCP connects or with nmap.
4. For a possible camera, it builds candidate stream URLs from a dictionary of default credentials and keeps the first URL that yields a frame.
5. It keeps a registry of saved cameras in a JSON file. From the registry, cameras can be verified, deleted, or turned into remote-access suggestions and viewed in a live viewer that retries a lost stream.

This project models those steps. Each module below mirrors one component of the program:

| module | what it models |
|---|---|
| `Common` | an `Option` type |
| `Text` | Python's `str.replace(p, "")`, `str.split(c)`, `startswith` and decimal formatting, as functions with their own lemmas |
| `ScanConfig` | `DEFAULT_CREDS` (14 pairs) and `CAM_PORTS` (80, 554, 8080, 8888) |
| `Interfaces` | `obtener_interfaces` (the nested loop as a method) and `calcular_red`, over dotted-quad IPv4 text |
| `PortScan` | `escanear_puertos` (a loop over the ports) and `escaneo_avanzado` (nmap's answer as a datatype) |
| `Candidates` | `construir_urls` (nested loop) and the exact position of every candidate URL |
| `AccessSearch` | the first-success loop over candidate URLs with `probar_stream` |
| `ScanTask` | `tarea_escaneo`, the loop over the swept hosts |
| `Registry` | the `CameraManager` class and the add, verify and delete handlers; the in-memory list and the file are two fields of a class |
| `RemoteAccess` | the URL parsing of the remote-access window and `generar_url_remota` |
| `Viewer` | the `CamViewer` class, with its retry counter and the reconnect button |

The outside world is passed in as parameters, never modelled:

- **Sockets:** `connect: (string, nat) -> ConnectOutcome`.
- **nmap:** `NmapOutcome`. A missing scanner, a raising scan, or the hosts and tcp table it reports.
- **MAC vendor lookup:** `string -> Option<string>`, where `None` means the lookup raised.
- **OpenCV capture:** `string -> Capture`, whether the capture opened and whether a frame was read.
- **HTTP:** `string -> HttpOutcome`.
- **ARP sweep:** `Sweep`.
- **Public-IP lookup:** `Option<string>`.
- **Clock:** a `now` string.
- **File writes:** a `writeOk` flag.
- **Tk event queue (`after`):** the `scheduled` flag of the viewer.

## Model

| member | source | states |
|---|---|---|
| Candidates.BuildUrls | archivos/shadowcam2.py:811-821 | the loop, given the credential dictionary (`DEFAULT_CREDS` in the program), returns exactly `CandidateUrls(ip, ports, creds)`: port by port, and per port every credential in dictionary order, an RTSP URL followed by an HTTP URL |
| Candidates.CandidateCount | archivos/shadowcam2.py:811-821 | there are twice as many candidate URLs as ports times credentials |
| Candidates.PortCandidatesAt | archivos/shadowcam2.py:814-820 | for one port, entry `2j` is the RTSP URL and entry `2j+1` the HTTP URL of credential `j` |
| Candidates.CandidateAt | archivos/shadowcam2.py:811-821 | with `n` credentials, entry `2n·i + 2j` is the RTSP URL of port `i` and credential `j`, and the next entry is its HTTP URL |
| Candidates.CredentialShown | archivos/shadowcam2.py:815-820 | a URL contains `@` if and only if both user and password are non-empty, and then it contains `user:password@` |
| Candidates.DictionaryShape | archivos/shadowcam2.py:35-50 | the dictionary has 14 pairs; the first 11 embed credentials, `("", "admin")` and `("", "")` do not, `supervisor` does |
| Candidates.AnonymousCandidatePosition | archivos/shadowcam2.py:811-821 | for one port there are 28 URLs; the first is `rtsp://admin:admin@…`; the anonymous RTSP URL is entry 22, repeated at 26, and differs from every earlier entry |
| Candidates.EarlierCandidateDiffers | archivos/shadowcam2.py:815-820 | a credentialed URL never equals an anonymous RTSP URL |
| AccessSearch.FirstHit | archivos/shadowcam2.py:890-904 | the result is the least index whose capture opens and reads a frame; it is `None` exactly when no URL does |
| AccessSearch.ProbeCandidates | archivos/shadowcam2.py:890-904 | the loop stops at the first readable URL and has tested that many URLs; otherwise it tests them all and finds nothing |
| PortScan.ScanPorts | archivos/shadowcam2.py:779-791 | the loop returns `OpenPorts`: the ports whose connect returned 0, in the order probed |
| PortScan.OpenPortsPositions | archivos/shadowcam2.py:779-791 | the open ports are a subsequence of the probed ports: increasing positions, and a position is included iff its connect succeeded |
| PortScan.OpenPortsMembership | archivos/shadowcam2.py:779-791 | a port is reported iff it was probed and its connect succeeded; a raising connect reports nothing |
| PortScan.DeepScan | archivos/shadowcam2.py:793-808 | returns `DeepScanResult`: nothing (the exception escapes) for a missing scanner, empty lists for a raising scan or an unlisted host, otherwise the open tcp entries and their service names |
| PortScan.DeepScanReports | archivos/shadowcam2.py:793-808 | with a scanner present there is always a result; services and ports have equal length; a port is reported iff the host was listed and its tcp entry says `open` |
| PortScan.OpenEntriesMembership | archivos/shadowcam2.py:800-802 | an entry is kept iff it is in the tcp table and its state is `open` |
| PortScan.NamesOf | archivos/shadowcam2.py:803 | one service name per open port, position by position |
| Interfaces.GetInterfaces | archivos/shadowcam2.py:760-766 | the nested loop returns `InterfacesOf(adapters)` |
| Interfaces.AdapterInterfacesMembership | archivos/shadowcam2.py:763-765 | an entry of one adapter is offered iff it is an IPv4 address not starting with `127.` |
| Interfaces.InterfacesMembership | archivos/shadowcam2.py:760-766 | an interface is offered iff some adapter has an IPv4, non-`127.` address with that name, address and netmask |
| Interfaces.NoLoopbackOffered | archivos/shadowcam2.py:764 | no offered interface starts with `127.` |
| Interfaces.LoopbackText | archivos/shadowcam2.py:764 | the dotted text of an address starts with `127.` iff its first octet is 127 |
| Interfaces.ParseOctetRendered | archivos/shadowcam2.py:768-769 | every octet's decimal text parses back to that octet |
| Interfaces.DottedPieces | archivos/shadowcam2.py:768-769 | splitting a dotted quad on `.` gives the four octets' texts |
| Interfaces.ParseDotted | archivos/shadowcam2.py:768-769 | parsing the dotted text of an address gives back the address |
| Interfaces.Slash24Masks | archivos/shadowcam2.py:768-769 | the network base is the address with its low 8 bits cleared, and two addresses share the /24 iff they agree above the low 8 bits |
| Interfaces.NetworkToScan | archivos/shadowcam2.py:768-769 | an address text gives a network exactly when it parses as a dotted IPv4 address, and the network text is that address with the last octet zeroed followed by `/24` |
| Interfaces.NetworkOfAddress | archivos/shadowcam2.py:768-769 | the dotted text of every address gives the /24 network with the last octet zeroed, and two addresses give the same network iff their first three octets agree |
| Interfaces.ExampleNetwork | archivos/shadowcam2.py:768-769 | `192.168.1.50` gives the network `192.168.1.0/24` |
| ScanTask.RunScan | archivos/shadowcam2.py:861-917 | the scan returns `Scan(sweep, advanced, probes)`: the host reports, the confirmed cameras and whether the loop ran to the end |
| ScanTask.AbortSticks | archivos/shadowcam2.py:867-870 | once an exception has ended the loop, later hosts change nothing |
| ScanTask.CameraPortsMembership | archivos/shadowcam2.py:889 | a port is tried for URLs iff it is open and one of `CAM_PORTS` |
| ScanTask.CameraPortsWhenPossible | archivos/shadowcam2.py:882-889 | there are ports to try iff the host was flagged as a possible camera |
| ScanTask.ProbeHost | archivos/shadowcam2.py:876-902 | the per-host steps (vendor lookup, camera-port test, candidate URLs of the camera ports, probing in order until one works) return exactly `Report(h, ports, probes)` |
| ScanTask.PossibleCameraMeaning | archivos/shadowcam2.py:882 | a host is a possible camera exactly when some open port is in `CAM_PORTS` |
| ScanTask.ReportFields | archivos/shadowcam2.py:874-882 | the report keeps ip, MAC and open ports, the vendor is the lookup's answer or `Desconocido`, and the camera flag holds exactly when an open port is a camera port |
| ScanTask.ReportUrlFound | archivos/shadowcam2.py:885-902 | a recorded camera URL belongs to a possible camera and is the first candidate, in dictionary order, whose stream yields a frame |
| ScanTask.ReportUrlMissing | archivos/shadowcam2.py:885-902 | a possible camera without a recorded URL has no candidate whose stream yields a frame |
| ScanTask.ScanHostsShape | archivos/shadowcam2.py:867-907 | there is at most one report per swept host, in sweep order with its ip and MAC; a completed scan reports every host; the confirmed cameras are exactly those of the reports |
| ScanTask.ScanHostsStops | archivos/shadowcam2.py:867-870 | the scan completes iff it is not in advanced mode or no host meets a missing nmap scanner; otherwise it stops at the first such host |
| ScanTask.CamerasOfMembership | archivos/shadowcam2.py:900-901 | a camera is confirmed iff some report has that ip and recorded that URL |
| ScanTask.AnonymousCameraFound | archivos/shadowcam2.py:886-904 | a camera on port 554 readable only anonymously is found at candidate 22, with URL `rtsp://ip:554/` |
| Registry.LoadAfterSave | archivos/shadowcam2.py:62-81 | loading a missing or undecodable file gives the empty list; reloading after a successful save restores the list; after a failed save it restores what the file held; loading twice is loading once |
| Registry.NextId | archivos/shadowcam2.py:86 | the corrected id rule: a positive id larger than every stored id |
| Registry.NextIdWithoutRemovals | archivos/shadowcam2.py:86 | while the ids are 1..n in order, the corrected id equals the written `len + 1` |
| Registry.IdRepeatsAfterRemoval | archivos/shadowcam2.py:86 | with ids 1 and 2 and the first removed, the written `len + 1` gives a second id 2, while the corrected id keeps the ids unique |
| Registry.AddAppends | archivos/shadowcam2.py:83-97 | the new record is appended whatever the write does, with id `len + 1`, the given fields, `active`, no attempts and no last connection; the ids stay distinct when none exceeds the old length, and ids 1..n become 1..n+1; on a consistent registry, reloading keeps the record iff the write succeeded |
| Registry.AddCorrectedAppends | archivos/shadowcam2.py:83-97 | corrected, the appended record is the same except for its id, which no earlier record has, so ids stay distinct; while the ids are 1..n it is the add as written |
| Registry.SaveDialogRepeatsId | archivos/shadowcam2.py:86 | as written, the save dialog on a file holding one record with id 2 adds a second record with id 2; corrected, the new record gets id 3 |
| Registry.WrittenHandlersKeepSequentialIds | archivos/shadowcam2.py:83-97 | the save dialog and the written verify and delete handlers keep the ids 1..n in the list and the file, so `len + 1` repeats an id only for a file whose ids are not 1..n |
| Registry.CheckAccess | archivos/shadowcam2.py:99-119 | a URL is judged reachable only if it is `rtsp://` and its capture reads a frame, or `http://` and the request answers 200 |
| Registry.CheckAccessSchemes | archivos/shadowcam2.py:99-119 | an `rtsp://` URL is reachable iff its capture reads a frame, an `http://` URL iff the request answers 200, and no other URL is reachable |
| Registry.HttpCameraMayFailCheck | archivos/shadowcam2.py:112-114 | an HTTP URL whose stream the scan could read is still reported unreachable when the HTTP request fails |
| Registry.RecordVerification | archivos/shadowcam2.py:287-303 | one more attempt, `active` is the check's answer, the last connection moves to now only on success, and no other field changes |
| Registry.VerifyAsWrittenLosesUpdate | archivos/shadowcam2.py:281-306 | as written, on a consistent registry the handler leaves the state unchanged, so the attempt is not recorded; with a missing file it writes an empty registry |
| Registry.VerifyUpdatesOne | archivos/shadowcam2.py:281-306 | corrected, only the chosen record changes: it gets one more attempt and keeps its id, the others are kept, ids stay unique, and a successful save persists the update |
| Registry.DeleteAsWrittenUndone | archivos/shadowcam2.py:445-446 | as written, on a consistent registry the delete handler leaves the state unchanged and the record is still there |
| Registry.DeleteRemovesOne | archivos/shadowcam2.py:445-446 | corrected, exactly the chosen record is removed (the multiset shrinks by it), order is kept, ids stay unique, and a successful save persists the removal |
| Registry.CameraManager.constructor | archivos/shadowcam2.py:59-60 | a manager over the given file, before its first load |
| Registry.CameraManager.Load | archivos/shadowcam2.py:62-71 | the new state is `AfterLoad`; it raises only on an unreadable file |
| Registry.CameraManager.Save | archivos/shadowcam2.py:73-81 | the new state is `AfterSave`, and the result is whether the write succeeded |
| Registry.CameraManager.Add | archivos/shadowcam2.py:83-97 | the new state is `AfterAdd` (id `len + 1`), and the result is the save's result |
| Registry.CameraManager.AddCorrected | archivos/shadowcam2.py:83-97 | the new state is `AfterAddCorrected` (id one more than any in use), and the result is the save's result |
| Registry.CameraManager.SaveDialog | archivos/shadowcam2.py:534-546 | reload, then the add as written; succeeds iff the load did not raise and the write succeeded |
| Registry.CameraManager.VerifyAsWritten | archivos/shadowcam2.py:281-306 | the reachability answer and the written handler's new state |
| Registry.CameraManager.Verify | archivos/shadowcam2.py:281-306 | the reachability answer and the corrected handler's new state |
| Registry.CameraManager.DeleteAsWritten | archivos/shadowcam2.py:445-446 | the written delete: delete, reload, save |
| Registry.CameraManager.Delete | archivos/shadowcam2.py:445-446 | the corrected delete: delete, save |
| RemoteAccess.ParseCameraUrlAsWritten | archivos/shadowcam2.py:346-356 | without `@` the parse never fails and gives port `554` and empty credentials; with `@` it succeeds only when there is exactly one `@` |
| RemoteAccess.ParseCameraUrl | archivos/shadowcam2.py:346-356 | corrected, it succeeds exactly when the written parse does and agrees with it, except that without `@` the port is the one written in the URL; credentials are empty without `@` |
| RemoteAccess.StripLeadingScheme | archivos/shadowcam2.py:346 | removing `rtsp://` and then `http://` from a candidate URL leaves exactly the part after its scheme |
| RemoteAccess.HostAndPortOf | archivos/shadowcam2.py:350-352 | `ip:port/path` splits into the ip and the port text |
| RemoteAccess.ParseCredentialedOf | archivos/shadowcam2.py:348-352 | `user:pwd@ip:port/path` gives back user, password, ip and port |
| RemoteAccess.ParseCredentialedUrl | archivos/shadowcam2.py:346-352 | both the written and the corrected parser read a credentialed RTSP or HTTP candidate URL back into its ip, port, user and password |
| RemoteAccess.ParseAnonymousUrl | archivos/shadowcam2.py:353-356 | for an anonymous URL the corrected parser gives its port, while the written parser always gives `554` |
| RemoteAccess.AnonymousRest | archivos/shadowcam2.py:355 | an anonymous URL has no `@`, and its ip is the text before the first `:` |
| RemoteAccess.AnonymousPortLost | archivos/shadowcam2.py:353-356 | an anonymous camera on port 8080 is reported as port 554 as written, and as 8080 corrected |
| RemoteAccess.ParseCandidate | archivos/shadowcam2.py:346-356 | the corrected parser reads every candidate URL back into its ip, port and credentials, with empty credentials for the anonymous ones |
| RemoteAccess.AccessMethods | archivos/shadowcam2.py:121-154 | with a public IP there are three suggestions (public, local, tunnel), without one there are two; the public and local URLs embed `user:password@host:port/` |
| RemoteAccess.RemoteAccessReloads | archivos/shadowcam2.py:319-359 | the handler's `CameraManager()` leaves a consistent registry as it was but empties the list on a missing or undecodable file; methods are listed iff the URL parses and the file can be read, and they are those of the selected record's address |
| RemoteAccess.LocalMethodOfCandidate | archivos/shadowcam2.py:139-144 | for a credentialed candidate, the local suggestion reproduces the candidate's RTSP URL; for an anonymous one it becomes `rtsp://:@ip:554/` |
| Viewer.TickSchedule | archivos/shadowcam2.py:595-634 | a frame read shows `Connected`, resets the counter and reschedules after 30 ms; a failure adds one, shows `Retrying` and reschedules after 1000 ms, except that the third failure shows no connection and reschedules nothing; after `stop` nothing changes but the pending read |
| Viewer.RunCounter | archivos/shadowcam2.py:595-634 | from a fresh viewer, while reads continue, the counter is the number of failures since the last good frame and stays below 3; reads stop iff three failures in a row occurred, and then the viewer shows no connection with the counter at 3 |
| Viewer.StoppedStays | archivos/shadowcam2.py:596-597 | once no read is pending, nothing more happens |
| Viewer.ReconnectAfterDisconnect | archivos/shadowcam2.py:655-659 | after the reads have stopped, the written reconnect never reads again, while the corrected one shows `Connected` after one good frame |
| Viewer.ReconnectWhilePolling | archivos/shadowcam2.py:655-659 | while reads are still pending, the written and the corrected reconnect agree |
| Viewer.CamViewer.constructor | archivos/shadowcam2.py:583-593 | running, no failures, and the first read under way |
| Viewer.CamViewer.UpdateFrame | archivos/shadowcam2.py:595-634 | the new state is `AfterTick` and the returned delay is `TickDelay` |
| Viewer.CamViewer.Stop | archivos/shadowcam2.py:636-639 | the viewer stops running |
| Viewer.CamViewer.ReconnectAsWritten | archivos/shadowcam2.py:655-659 | counter reset and `Reconnecting` shown; nothing scheduled |
| Viewer.CamViewer.Reconnect | archivos/shadowcam2.py:655-659 | as written, and reads restart when they had stopped on a running viewer |

## Left out

- **The user interface:** Tk windows, dialogs, list boxes, progress bars and the text log; the login, credits, dashboard, CSV and PDF export, and the configuration export. What the handlers do to the registry is modelled, including the reload that each `CameraManager()` construction performs.
- **The rendering of the remote-access text:** the call to `.format` on text that contains `{'='*50}` raises `KeyError`. This is display code.
- **Threads:** the scan, verify and viewer callbacks run one at a time in the model, and races on the global lists are not modelled.
- **JSON:** encoding and the shape of the stored records are not modelled. A record is a datatype with the nine stored fields, and a file is either missing, undecodable, unreadable or a list of records.
- **External tools are oracles:** ARP (`escanear_red`), socket timeouts, nmap, the MAC vendor database, OpenCV and HTTP. Only the outcome each reports is modelled.
- **Log lines:** `probar_stream` writes progress lines to the result text, and these are not modelled.
- **The clock and the public-IP lookup** are parameters.
- **Frame processing:** colour conversion, resizing and the screenshot button are not modelled. Neither is the viewer's error text.
- **`js/script.js`** is not part of this model.
- Registry.AfterSave: a failed `json.dump` can leave a truncated file behind. The model keeps the previous file instead, so a failed save followed by a reload is modelled as bringing back the old list.
- Interfaces.NetworkToScan: an address that does not parse gives `None` where `ipaddress.ip_network` raises `ValueError`. Addresses taken from the interface list are always well-formed.
- RemoteAccess.ParseCameraUrl: a URL with more than one `@`, or with more than one `:` in its credentials, makes the source raise `ValueError`. The model returns `None` for it. No lemma states this rejection.
- Viewer.RunCounter: holds from a fresh viewer with no `stop` or reconnect in between. Interleavings of those buttons with the reads are covered only by `StoppedStays` and the reconnect lemmas.

## Findings

| source | as written | input that shows it | evidently intended | confidence | as-written member | corrected member |
|---|---|---|---|---|---|---|
| archivos/shadowcam2.py:445-446 | the delete handler deletes from the global list, then `CameraManager()` reloads the list from the file before saving | any saved camera on a registry whose file matches the list | the record is removed and the removal saved | high, not executed | Registry.DeleteAsWrittenUndone | Registry.DeleteRemovesOne |
| archivos/shadowcam2.py:281-306 | the verify thread builds `CameraManager()` (a reload), then updates the record captured before the reload and saves the reloaded list | any saved camera; with the file missing, the list is saved empty | the attempt count, the `activa` flag and the last connection of that record are saved | high, not executed | Registry.VerifyAsWrittenLosesUpdate | Registry.VerifyUpdatesOne |
| archivos/shadowcam2.py:353-356 | a URL without `@` always gets port `'554'` | `rtsp://10.0.0.5:8080/` gives port 554 | the port written in the URL, as in the `@` branch | medium, not executed | RemoteAccess.AnonymousPortLost | RemoteAccess.ParseCandidate |
| archivos/shadowcam2.py:86 | the new id is `len(camaras_guardadas) + 1` | latent while the ids are 1..n, which the written handlers keep; a registry file holding one record with id 2 (written by hand or by another version), then the save dialog: two records with id 2 | ids unique among the current records | medium, not executed | Registry.SaveDialogRepeatsId | Registry.AddCorrectedAppends |
| archivos/shadowcam2.py:655-659 | `reconnect` resets the counter and reopens the capture but schedules no `update_frame` | three failed reads (the viewer shows no connection), then press reconnect: no frame is ever read again | polling resumes after a reconnect | medium, not executed | Viewer.ReconnectAfterDisconnect | Viewer.CamViewer.Reconnect |

Other behaviour worth noting:

- **The anonymous candidate is not tried first.** With `DEFAULT_CREDS` in the order written, `admin:admin` comes first and the anonymous RTSP URL of a port is entry 22 (0-based) of 28, the 23rd tried. `Candidates.AnonymousCandidatePosition` states this.
- **The scan and the verify button check HTTP cameras differently.** The scan probes HTTP candidates with OpenCV. The verify button asks for HTTP status 200. `Registry.HttpCameraMayFailCheck` states this.
- **`agregar_camara` does not wait for the save.** It appends the record to the list before saving, so the list keeps it even when the save fails (`Registry.AddAppends`).
- **A missing nmap ends the whole scan.** `nmap.PortScanner()` is built outside the `try` in `escaneo_avanzado`, so a missing nmap ends the scan task at the first host (`ScanTask.ScanHostsStops`).
- **The tunnel suggestion is not filled in.** Its description is the literal text `Usar ngrok tcp {puerto} para crear túnel`, because that line is not an f-string.
