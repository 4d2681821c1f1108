/**
  The saved-camera registry (`CameraManager`): the in-memory list
  `camaras_guardadas` and the JSON file it is persisted to, with the load,
  save and add operations, the access check, and the verify and delete
  handlers of the management window.

  Every `CameraManager()` construction reloads the list from the file. The
  handlers as written therefore lose their own changes: the delete handler
  deletes and then reloads, and the verify handler updates a record of the
  list that the reload has just replaced. Both handlers are modelled as
  written and as evidently intended, and so is the add, whose id rule
  `len + 1` repeats an id once the ids are not 1, ..., n.
*/
module Registry {
  import opened Common
  import opened Text
  import opened AccessSearch

  /** One saved camera, with the fields of the JSON record. */
  datatype SavedCamera = SavedCamera(
    id: int, name: string, url: string, localIp: string, description: string,
    addedAt: string, active: bool, connectionAttempts: nat, lastConnection: Option<string>)

  /** What the registry file holds, as far as loading it is concerned. */
  datatype StoredFile =
    | Missing                           // opening it raises `FileNotFoundError`
    | Undecodable                       // decoding it raises `JSONDecodeError`
    | Unreadable                        // opening or reading it raises anything else
    | Stored(cameras: seq<SavedCamera>) // a list of records

  /** The whole registry state: the in-memory list and the file. */
  datatype RegistryState = RegistryState(cameras: seq<SavedCamera>, file: StoredFile)

  /** The state is consistent when the file holds exactly the in-memory list. */
  predicate Consistent(st: RegistryState) {
    st.file == Stored(st.cameras)
  }

  /** Loading raises (and escapes to the caller) only for an unreadable file. */
  predicate LoadRaises(st: RegistryState) {
    st.file.Unreadable?
  }

  /** `cargar_camaras_guardadas`: the list becomes the file's list, or empty for a missing or undecodable file. */
  function AfterLoad(st: RegistryState): RegistryState {
    match st.file
    case Missing => st.(cameras := [])
    case Undecodable => st.(cameras := [])
    case Unreadable => st
    case Stored(cs) => st.(cameras := cs)
  }

  /** `guardar_camaras`: a successful write makes the file hold the list; a failed one changes nothing. */
  function AfterSave(st: RegistryState, writeOk: bool): RegistryState {
    if writeOk then st.(file := Stored(st.cameras)) else st
  }

  /**
    Loading never fails on a missing or undecodable file (it gives the empty
    list), reloading right after a successful save restores exactly the saved
    list, and after a failed save it brings back what the file held before.
  */
  lemma LoadAfterSave(st: RegistryState, writeOk: bool)
    ensures (st.file == Missing || st.file == Undecodable) ==> !LoadRaises(st) && AfterLoad(st).cameras == []
    ensures !LoadRaises(AfterSave(st, true)) && AfterLoad(AfterSave(st, true)) == AfterSave(st, true)
    ensures AfterLoad(AfterSave(st, false)).cameras == AfterLoad(st).cameras
    ensures AfterLoad(AfterLoad(st)) == AfterLoad(st)
  {
  }

  /** The largest id in the list, 0 when it is empty. */
  function MaxId(cameras: seq<SavedCamera>): (r: int)
    ensures r >= 0
    ensures forall k :: 0 <= k < |cameras| ==> cameras[k].id <= r
    ensures r == 0 || exists k :: 0 <= k < |cameras| && cameras[k].id == r
    decreases |cameras|
  {
    if cameras == [] then 0
    else
      var m := MaxId(cameras[..|cameras| - 1]);
      var last := cameras[|cameras| - 1].id;
      if last > m then last else m
  }

  /** The id `agregar_camara` gives a new record: the list's length plus one. */
  function NextIdAsWritten(cameras: seq<SavedCamera>): int {
    |cameras| + 1
  }

  /** The id a new record evidently should get: one more than any id in use. */
  function NextId(cameras: seq<SavedCamera>): (r: int)
    ensures r >= 1
    ensures forall k :: 0 <= k < |cameras| ==> cameras[k].id < r
  {
    MaxId(cameras) + 1
  }

  /** While no record was ever removed (ids 1, 2, ..., n in order), both id rules agree. */
  lemma {:induction false} NextIdWithoutRemovals(cameras: seq<SavedCamera>)
    requires SequentialIds(cameras)
    ensures NextId(cameras) == NextIdAsWritten(cameras)
    decreases |cameras|
  {
    if cameras != [] {
      var n := |cameras| - 1;
      NextIdWithoutRemovals(cameras[..n]);
    }
  }

  /** No two records share an id. */
  predicate UniqueIds(cameras: seq<SavedCamera>) {
    forall k, l :: 0 <= k < l < |cameras| ==> cameras[k].id != cameras[l].id
  }

  /** The record `agregar_camara` builds: active, never tried, never connected. */
  function NewRecord(id: int, name: string, url: string, localIp: string, description: string, now: string): SavedCamera {
    SavedCamera(id, name, url, localIp, description, now, true, 0, None)
  }

  /** Ids 1, 2, ..., n in list order: what the list looks like while no record was ever removed. */
  predicate SequentialIds(cameras: seq<SavedCamera>) {
    forall k :: 0 <= k < |cameras| ==> cameras[k].id == k + 1
  }

  /**
    `agregar_camara`: a record with id `len(camaras_guardadas) + 1` is
    appended to the list first and the save is attempted afterwards, so a
    failed save leaves it in memory but not in the file.
  */
  function AfterAdd(st: RegistryState, name: string, url: string, localIp: string, description: string, now: string, writeOk: bool): RegistryState {
    AfterSave(st.(cameras := st.cameras + [NewRecord(NextIdAsWritten(st.cameras), name, url, localIp, description, now)]), writeOk)
  }

  /** `agregar_camara` as evidently intended: the new record's id is one more than any id in use. */
  function AfterAddCorrected(st: RegistryState, name: string, url: string, localIp: string, description: string, now: string, writeOk: bool): RegistryState {
    AfterSave(st.(cameras := st.cameras + [NewRecord(NextId(st.cameras), name, url, localIp, description, now)]), writeOk)
  }

  /**
    Adding appends exactly one record, with id the old length plus one,
    active, with no attempts and no last connection, and keeps the earlier
    records; a reload afterwards keeps the record exactly when the save
    succeeded. The ids stay distinct when no earlier id exceeds the old
    length, as with ids 1, ..., n, which the add then extends to 1, ..., n + 1.
  */
  lemma AddAppends(st: RegistryState, name: string, url: string, localIp: string, description: string, now: string, writeOk: bool)
    ensures var r := AfterAdd(st, name, url, localIp, description, now, writeOk);
      |r.cameras| == |st.cameras| + 1 && r.cameras[..|st.cameras|] == st.cameras
    ensures var c := AfterAdd(st, name, url, localIp, description, now, writeOk).cameras[|st.cameras|];
      c.id == |st.cameras| + 1 &&
      c.name == name && c.url == url && c.localIp == localIp && c.description == description &&
      c.addedAt == now && c.active && c.connectionAttempts == 0 && c.lastConnection == None
    ensures UniqueIds(st.cameras) && (forall k :: 0 <= k < |st.cameras| ==> st.cameras[k].id <= |st.cameras|) ==>
      UniqueIds(AfterAdd(st, name, url, localIp, description, now, writeOk).cameras)
    ensures SequentialIds(st.cameras) ==> SequentialIds(AfterAdd(st, name, url, localIp, description, now, writeOk).cameras)
    ensures Consistent(st) ==>
      AfterLoad(AfterAdd(st, name, url, localIp, description, now, writeOk)).cameras ==
        if writeOk then st.cameras + [NewRecord(|st.cameras| + 1, name, url, localIp, description, now)] else st.cameras
  {
    var r := AfterAdd(st, name, url, localIp, description, now, writeOk);
    assert r.cameras[..|st.cameras|] == st.cameras;
  }

  /**
    The corrected add appends the same record except for its id, which no
    earlier record has, so the ids stay distinct whatever they were; while the
    ids are 1, ..., n it is the add as written.
  */
  lemma AddCorrectedAppends(st: RegistryState, name: string, url: string, localIp: string, description: string, now: string, writeOk: bool)
    ensures var r := AfterAddCorrected(st, name, url, localIp, description, now, writeOk);
      |r.cameras| == |st.cameras| + 1 && r.cameras[..|st.cameras|] == st.cameras &&
      r.cameras[|st.cameras|] == AfterAdd(st, name, url, localIp, description, now, writeOk).cameras[|st.cameras|].(id := r.cameras[|st.cameras|].id)
    ensures var c := AfterAddCorrected(st, name, url, localIp, description, now, writeOk).cameras[|st.cameras|];
      forall k :: 0 <= k < |st.cameras| ==> st.cameras[k].id != c.id
    ensures UniqueIds(st.cameras) ==> UniqueIds(AfterAddCorrected(st, name, url, localIp, description, now, writeOk).cameras)
    ensures SequentialIds(st.cameras) ==>
      AfterAddCorrected(st, name, url, localIp, description, now, writeOk) == AfterAdd(st, name, url, localIp, description, now, writeOk)
  {
    var r := AfterAddCorrected(st, name, url, localIp, description, now, writeOk);
    assert r.cameras[..|st.cameras|] == st.cameras;
    if SequentialIds(st.cameras) {
      NextIdWithoutRemovals(st.cameras);
    }
  }

  /** What the HTTP request of the access check gives: a status code, or an exception. */
  datatype HttpOutcome = Status(code: int) | RequestFailed

  /**
    `verificar_acceso_remoto`: an `rtsp://` URL is reachable when a capture
    opens and reads a frame, an `http://` URL when the request answers 200;
    any other URL, and any failure, is unreachable.
  */
  function CheckAccess(url: string, capture: string -> Capture, http: string -> HttpOutcome): (r: bool)
    ensures r ==> (StartsWith(url, "rtsp://") && StreamReadable(capture(url))) ||
                  (StartsWith(url, "http://") && http(url) == Status(200))
  {
    if StartsWith(url, "rtsp://") then
      var cap := capture(url);
      if cap.isOpened then cap.frameRead else false
    else if StartsWith(url, "http://") then http(url) == Status(200)
    else false
  }

  /**
    The access check agrees with the scan's stream test on RTSP URLs, but an
    HTTP URL is judged by its status code, not by the stream test; a URL of
    any other scheme is never reachable.
  */
  lemma CheckAccessSchemes(url: string, capture: string -> Capture, http: string -> HttpOutcome)
    ensures StartsWith(url, "rtsp://") ==> (CheckAccess(url, capture, http) <==> StreamReadable(capture(url)))
    ensures StartsWith(url, "http://") ==> (CheckAccess(url, capture, http) <==> http(url) == Status(200))
    ensures CheckAccess(url, capture, http) ==> StartsWith(url, "rtsp://") || StartsWith(url, "http://")
  {
    if StartsWith(url, "http://") {
      assert url[..7] == "http://";
      assert url[..7][4] == ':';
      assert !StartsWith(url, "rtsp://");
    }
  }

  /**
    A camera the scan confirmed through its HTTP URL (a capture read a frame)
    can still fail the access check, because the check asks for an HTTP 200
    instead.
  */
  lemma HttpCameraMayFailCheck()
    ensures var url := "http://10.0.0.2:80/video";
      var capture := (u: string) => Capture(true, true);
      var http := (u: string) => RequestFailed;
      StreamReadable(capture(url)) && !CheckAccess(url, capture, http)
  {
    var url := "http://10.0.0.2:80/video";
    assert url[..7] == "http://";
    assert url[..7] != "rtsp://" by {
      assert url[..7][0] == 'h';
    }
  }

  /**
    The bookkeeping of one verification: one more attempt; when reachable,
    active with the new last-connection time; otherwise inactive with the
    last connection kept.
  */
  function RecordVerification(c: SavedCamera, reachable: bool, now: string): (r: SavedCamera)
    ensures r.connectionAttempts == c.connectionAttempts + 1
    ensures r.active == reachable
    ensures r.lastConnection == if reachable then Some(now) else c.lastConnection
    ensures r.(connectionAttempts := 0, active := true, lastConnection := None) ==
      c.(connectionAttempts := 0, active := true, lastConnection := None)
  {
    var counted := c.(connectionAttempts := c.connectionAttempts + 1);
    if reachable then counted.(lastConnection := Some(now), active := true)
    else counted.(active := false)
  }

  /**
    The verify handler as written: the selected record is taken from the
    current list, the `CameraManager()` construction then reloads the list,
    the bookkeeping goes to the record taken before the reload, and the
    reloaded list is saved. If the reload raises, the thread ends and nothing
    changes.
  */
  function AfterVerifyAsWritten(st: RegistryState, writeOk: bool): RegistryState {
    if LoadRaises(st) then st else AfterSave(AfterLoad(st), writeOk)
  }

  /** The verify handler as evidently intended: the selected record is updated in the list, which is saved. */
  function AfterVerify(st: RegistryState, index: nat, reachable: bool, now: string, writeOk: bool): RegistryState
    requires index < |st.cameras|
  {
    AfterSave(st.(cameras := st.cameras[index := RecordVerification(st.cameras[index], reachable, now)]), writeOk)
  }

  /**
    As written, verification never changes the list: with the file holding
    the list, the attempt count stays as it was, and with the file missing the
    list is emptied and the empty list written over the registry.
  */
  lemma VerifyAsWrittenLosesUpdate(st: RegistryState, index: nat, reachable: bool, now: string, writeOk: bool)
    requires index < |st.cameras|
    ensures Consistent(st) ==> AfterVerifyAsWritten(st, writeOk) == st
    ensures Consistent(st) ==> (AfterVerifyAsWritten(st, writeOk).cameras[index].connectionAttempts ==
      AfterVerify(st, index, reachable, now, writeOk).cameras[index].connectionAttempts - 1)
    ensures st.file == Missing ==> AfterVerifyAsWritten(st, true) == RegistryState([], Stored([]))
  {
  }

  /**
    The intended verification changes only the selected record, by exactly
    the bookkeeping, keeps the ids unique, and survives a reload when saved.
  */
  lemma VerifyUpdatesOne(st: RegistryState, index: nat, reachable: bool, now: string, writeOk: bool)
    requires index < |st.cameras|
    ensures var r := AfterVerify(st, index, reachable, now, writeOk);
      |r.cameras| == |st.cameras| &&
      (forall k :: 0 <= k < |st.cameras| && k != index ==> r.cameras[k] == st.cameras[k]) &&
      r.cameras[index].connectionAttempts == st.cameras[index].connectionAttempts + 1 &&
      r.cameras[index].id == st.cameras[index].id
    ensures UniqueIds(st.cameras) ==> UniqueIds(AfterVerify(st, index, reachable, now, writeOk).cameras)
    ensures AfterLoad(AfterVerify(st, index, reachable, now, true)).cameras == AfterVerify(st, index, reachable, now, true).cameras
  {
    var r := AfterVerify(st, index, reachable, now, writeOk);
    assert r.cameras[index].id == st.cameras[index].id by {
      var c := st.cameras[index];
      var v := RecordVerification(c, reachable, now);
      assert v.(connectionAttempts := 0, active := true, lastConnection := None).id == v.id;
    }
  }

  /** The list without the record at `index`. */
  function Removed(cameras: seq<SavedCamera>, index: nat): seq<SavedCamera>
    requires index < |cameras|
  {
    cameras[..index] + cameras[index + 1..]
  }

  /**
    The delete handler as written: `del` removes the record from the list,
    then the `CameraManager()` construction reloads the list from the file
    and the reloaded list is saved. If the reload raises, the removal stays in
    memory only.
  */
  function AfterDeleteAsWritten(st: RegistryState, index: nat, writeOk: bool): RegistryState
    requires index < |st.cameras|
  {
    var removed := st.(cameras := Removed(st.cameras, index));
    if LoadRaises(removed) then removed else AfterSave(AfterLoad(removed), writeOk)
  }

  /** The delete handler as evidently intended: remove the record, then save the list. */
  function AfterDelete(st: RegistryState, index: nat, writeOk: bool): RegistryState
    requires index < |st.cameras|
  {
    AfterSave(st.(cameras := Removed(st.cameras, index)), writeOk)
  }

  /** As written, a delete is undone by the reload: with the file holding the list, nothing changes. */
  lemma DeleteAsWrittenUndone(st: RegistryState, index: nat, writeOk: bool)
    requires index < |st.cameras|
    requires Consistent(st)
    ensures AfterDeleteAsWritten(st, index, writeOk) == st
    ensures st.cameras[index] in AfterDeleteAsWritten(st, index, writeOk).cameras
  {
  }

  /** Removing position `index` keeps the records before it, shifts those after it down by one, and drops only that record. */
  lemma RemovedShape(cameras: seq<SavedCamera>, index: nat)
    requires index < |cameras|
    ensures var r := Removed(cameras, index);
      |r| == |cameras| - 1 &&
      (forall k :: 0 <= k < index ==> r[k] == cameras[k]) &&
      (forall k :: index <= k < |r| ==> r[k] == cameras[k + 1]) &&
      multiset(r) + multiset{cameras[index]} == multiset(cameras)
  {
    assert cameras == cameras[..index] + [cameras[index]] + cameras[index + 1..];
  }

  /** Removing a record keeps the ids of the others pairwise distinct. */
  lemma RemovedUnique(cameras: seq<SavedCamera>, index: nat)
    requires index < |cameras| && UniqueIds(cameras)
    ensures UniqueIds(Removed(cameras, index))
  {
    var r := Removed(cameras, index);
    RemovedShape(cameras, index);
    forall k, l | 0 <= k < l < |r|
      ensures r[k].id != r[l].id
    {
      var k' := if k < index then k else k + 1;
      var l' := if l < index then l else l + 1;
      assert r[k] == cameras[k'] && r[l] == cameras[l'];
    }
  }

  /**
    The intended delete removes exactly the selected record, keeps the order
    of the others and their id uniqueness, and a reload after a successful
    save no longer has it.
  */
  lemma DeleteRemovesOne(st: RegistryState, index: nat, writeOk: bool)
    requires index < |st.cameras|
    ensures var r := AfterDelete(st, index, writeOk);
      |r.cameras| == |st.cameras| - 1 &&
      (forall k :: 0 <= k < index ==> r.cameras[k] == st.cameras[k]) &&
      (forall k :: index <= k < |r.cameras| ==> r.cameras[k] == st.cameras[k + 1]) &&
      multiset(r.cameras) + multiset{st.cameras[index]} == multiset(st.cameras)
    ensures UniqueIds(st.cameras) ==> UniqueIds(AfterDelete(st, index, writeOk).cameras)
    ensures AfterLoad(AfterDelete(st, index, true)).cameras == Removed(st.cameras, index)
  {
    assert AfterDelete(st, index, writeOk).cameras == Removed(st.cameras, index);
    RemovedShape(st.cameras, index);
    if UniqueIds(st.cameras) {
      RemovedUnique(st.cameras, index);
    }
  }

  /**
    With ids given as the list's length plus one, an id repeats as soon as
    the ids are not 1, ..., n: of two records with ids 1 and 2, removing the
    first and adding a new one gives two records with id 2, while the
    corrected rule gives id 3.
  */
  lemma IdRepeatsAfterRemoval(a: SavedCamera, b: SavedCamera, name: string, url: string, localIp: string, description: string, now: string)
    requires a.id == 1 && b.id == 2
    ensures var kept := Removed([a, b], 0);
      var added := kept + [NewRecord(NextIdAsWritten(kept), name, url, localIp, description, now)];
      UniqueIds([a, b]) && !UniqueIds(added)
    ensures var kept := Removed([a, b], 0);
      UniqueIds(kept + [NewRecord(NextId(kept), name, url, localIp, description, now)])
  {
    var kept := Removed([a, b], 0);
    assert kept == [b];
    var added := kept + [NewRecord(NextIdAsWritten(kept), name, url, localIp, description, now)];
    assert added[0].id == added[1].id;
  }

  /**
    The save dialog as written repeats an id when the registry file holds
    ids other than 1, ..., n: with one stored record of id 2, the record it
    adds also gets id 2; the corrected add gives it id 3.
  */
  lemma SaveDialogRepeatsId(b: SavedCamera, name: string, url: string, localIp: string, description: string, now: string, writeOk: bool)
    requires b.id == 2
    ensures var st := RegistryState([], Stored([b]));
      var r := AfterSaveDialog(st, name, url, localIp, description, now, writeOk);
      r.cameras == [b, NewRecord(2, name, url, localIp, description, now)] && !UniqueIds(r.cameras)
    ensures var st := RegistryState([], Stored([b]));
      var r := AfterSaveDialogCorrected(st, name, url, localIp, description, now, writeOk);
      r.cameras == [b, NewRecord(3, name, url, localIp, description, now)] && UniqueIds(r.cameras)
  {
    var st := RegistryState([], Stored([b]));
    var r := AfterSaveDialog(st, name, url, localIp, description, now, writeOk);
    assert r.cameras[0].id == r.cameras[1].id;
  }

  /** The save dialog's handler: construct the manager (a reload), then add. */
  function AfterSaveDialog(st: RegistryState, name: string, url: string, localIp: string, description: string, now: string, writeOk: bool): RegistryState {
    if LoadRaises(st) then st else AfterAdd(AfterLoad(st), name, url, localIp, description, now, writeOk)
  }

  /** The save dialog with the corrected add. */
  function AfterSaveDialogCorrected(st: RegistryState, name: string, url: string, localIp: string, description: string, now: string, writeOk: bool): RegistryState {
    if LoadRaises(st) then st else AfterAddCorrected(AfterLoad(st), name, url, localIp, description, now, writeOk)
  }

  /** Both the list and the file (when there is one) hold the ids 1, ..., n in order. */
  predicate SequentialRegistry(st: RegistryState) {
    SequentialIds(st.cameras) && (st.file == Missing || (st.file.Stored? && SequentialIds(st.file.cameras)))
  }

  /**
    The handlers as written keep the ids 1, ..., n in the list and in the
    file: the save dialog extends them, and the written verify and delete
    handlers reload before saving. Since a fresh program starts with the
    empty list and, at worst, a missing file, `len + 1` repeats an id only
    for a registry file whose ids are not 1, ..., n.
  */
  lemma WrittenHandlersKeepSequentialIds(st: RegistryState, index: nat, name: string, url: string, localIp: string, description: string, now: string, writeOk: bool)
    requires SequentialRegistry(st)
    ensures SequentialRegistry(AfterSaveDialog(st, name, url, localIp, description, now, writeOk))
    ensures SequentialRegistry(AfterVerifyAsWritten(st, writeOk))
    ensures index < |st.cameras| ==> SequentialRegistry(AfterDeleteAsWritten(st, index, writeOk))
    ensures SequentialRegistry(RegistryState([], Missing))
  {
    AddAppends(AfterLoad(st), name, url, localIp, description, now, writeOk);
  }

  /**
    The registry: the global list and the file. A `CameraManager` object has
    no state of its own; constructing one is the `Load` method here.
  */
  class CameraManager {
    var cameras: seq<SavedCamera>
    var file: StoredFile

    function State(): RegistryState
      reads this
    {
      RegistryState(cameras, file)
    }

    /** Program start: the global list is empty and the file is whatever is on disk. */
    constructor(onDisk: StoredFile)
      ensures State() == RegistryState([], onDisk)
    {
      cameras := [];
      file := onDisk;
    }

    /** `cargar_camaras_guardadas`; `ok` is false when the load's exception escapes. */
    method Load() returns (ok: bool)
      modifies this
      ensures ok <==> !LoadRaises(old(State()))
      ensures State() == AfterLoad(old(State()))
    {
      ok := true;
      match file
      case Missing =>
        cameras := [];
      case Undecodable =>
        cameras := [];
      case Unreadable =>
        return false;
      case Stored(cs) =>
        cameras := cs;
    }

    /** `guardar_camaras`, returning whether the write succeeded. */
    method Save(writeOk: bool) returns (ok: bool)
      modifies this
      ensures ok == writeOk
      ensures State() == AfterSave(old(State()), writeOk)
    {
      if writeOk {
        file := Stored(cameras);
      }
      ok := writeOk;
    }

    /** `agregar_camara`: append the new record, with id the list's length plus one, then return the result of saving. */
    method Add(name: string, url: string, localIp: string, description: string, now: string, writeOk: bool) returns (ok: bool)
      modifies this
      ensures ok == writeOk
      ensures State() == AfterAdd(old(State()), name, url, localIp, description, now, writeOk)
    {
      var record := NewRecord(|cameras| + 1, name, url, localIp, description, now);
      cameras := cameras + [record];
      ok := Save(writeOk);
    }

    /** `agregar_camara` as evidently intended: the new id is one more than any id in use. */
    method AddCorrected(name: string, url: string, localIp: string, description: string, now: string, writeOk: bool) returns (ok: bool)
      modifies this
      ensures ok == writeOk
      ensures State() == AfterAddCorrected(old(State()), name, url, localIp, description, now, writeOk)
    {
      var record := NewRecord(NextId(cameras), name, url, localIp, description, now);
      cameras := cameras + [record];
      ok := Save(writeOk);
    }

    /** The save dialog: a reload, then an add; nothing is added when the reload raises. */
    method SaveDialog(name: string, url: string, localIp: string, description: string, now: string, writeOk: bool) returns (ok: bool)
      modifies this
      ensures ok == (!LoadRaises(old(State())) && writeOk)
      ensures State() == AfterSaveDialog(old(State()), name, url, localIp, description, now, writeOk)
    {
      ok := Load();
      if !ok {
        return;
      }
      ok := Add(name, url, localIp, description, now, writeOk);
    }

    /**
      The verify handler as written. `reachable` is the verdict the message
      box shows, `None` when the reload raised first.
    */
    method VerifyAsWritten(index: nat, capture: string -> Capture, http: string -> HttpOutcome, now: string, writeOk: bool)
      returns (reachable: Option<bool>)
      requires index < |cameras|
      modifies this
      ensures reachable == if LoadRaises(old(State())) then None else Some(CheckAccess(old(cameras)[index].url, capture, http))
      ensures State() == AfterVerifyAsWritten(old(State()), writeOk)
    {
      var selected := cameras[index];
      var loaded := Load();
      if !loaded {
        return None;
      }
      var accessible := CheckAccess(selected.url, capture, http);
      selected := RecordVerification(selected, accessible, now);
      var saved := Save(writeOk);
      reachable := Some(accessible);
    }

    /** The verify handler as evidently intended: update the selected record in the list, then save. */
    method Verify(index: nat, capture: string -> Capture, http: string -> HttpOutcome, now: string, writeOk: bool)
      returns (reachable: bool)
      requires index < |cameras|
      modifies this
      ensures reachable == CheckAccess(old(cameras)[index].url, capture, http)
      ensures State() == AfterVerify(old(State()), index, reachable, now, writeOk)
    {
      reachable := CheckAccess(cameras[index].url, capture, http);
      cameras := cameras[index := RecordVerification(cameras[index], reachable, now)];
      var saved := Save(writeOk);
    }

    /** The delete handler as written: remove, reload, save. */
    method DeleteAsWritten(index: nat, writeOk: bool)
      requires index < |cameras|
      modifies this
      ensures State() == AfterDeleteAsWritten(old(State()), index, writeOk)
    {
      cameras := cameras[..index] + cameras[index + 1..];
      var loaded := Load();
      if !loaded {
        return;
      }
      var saved := Save(writeOk);
    }

    /** The delete handler as evidently intended: remove, then save. */
    method Delete(index: nat, writeOk: bool)
      requires index < |cameras|
      modifies this
      ensures State() == AfterDelete(old(State()), index, writeOk)
    {
      cameras := cameras[..index] + cameras[index + 1..];
      var saved := Save(writeOk);
    }
  }
}
