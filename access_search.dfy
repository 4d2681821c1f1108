/**
  The stream test (`probar_stream`) and the first-success search over the
  candidate URLs of one host (the inner loop of the scan task).
*/
module AccessSearch {
  import opened Common

  /** What opening a video capture on a URL yields: whether it opened, and whether one frame was read. */
  datatype Capture = Capture(isOpened: bool, frameRead: bool)

  /** `probar_stream(url)`: the URL works when the capture opens and one frame is read. */
  predicate StreamReadable(cap: Capture) {
    cap.isOpened && cap.frameRead
  }

  /** The position of the first URL whose test succeeds, if any. */
  function FirstHit(urls: seq<string>, capture: string -> Capture): (r: Option<nat>)
    ensures r.Some? ==> r.value < |urls| && StreamReadable(capture(urls[r.value]))
    ensures r.Some? ==> forall k :: 0 <= k < r.value ==> !StreamReadable(capture(urls[k]))
    ensures r.None? <==> forall k :: 0 <= k < |urls| ==> !StreamReadable(capture(urls[k]))
    decreases |urls|
  {
    if urls == [] then None
    else if StreamReadable(capture(urls[0])) then Some(0)
    else
      match FirstHit(urls[1..], capture)
      case None => None
      case Some(k) => assert urls[1..][k] == urls[k + 1]; Some(k + 1)
  }

  /**
    The candidates are tested in order and the loop stops at the first that
    works: `found` is that URL and `tested` counts the tests made, so no URL
    after it is tested; when none works, every URL is tested once.
  */
  method ProbeCandidates(urls: seq<string>, capture: string -> Capture) returns (found: Option<string>, tested: nat)
    ensures tested <= |urls|
    ensures match FirstHit(urls, capture)
            case Some(k) => found == Some(urls[k]) && tested == k + 1
            case None => found == None && tested == |urls|
  {
    found := None;
    tested := 0;
    for i := 0 to |urls|
      invariant tested == i
      invariant forall k :: 0 <= k < i ==> !StreamReadable(capture(urls[k]))
    {
      var url := urls[i];
      tested := tested + 1;
      var cap := capture(url);
      if cap.isOpened && cap.frameRead {
        found := Some(url);
        return;
      }
    }
  }
}
