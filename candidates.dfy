/**
  Candidate stream URLs (`construir_urls`): for every port, for every entry
  of the credential dictionary in order, one RTSP URL and then one HTTP URL.
*/
module Candidates {
  import opened Text
  import opened ScanConfig

  /** A pair is written into the URL only when both fields are non-empty (`if user and pwd`). */
  predicate Embeds(c: Credential) {
    c.user != "" && c.pwd != ""
  }

  /** The RTSP candidate of a pair: `rtsp://[user:pwd@]ip:port/`. */
  function RtspUrl(ip: string, port: nat, c: Credential): string {
    if Embeds(c) then "rtsp://" + c.user + ":" + c.pwd + "@" + ip + ":" + Decimal(port) + "/"
    else "rtsp://" + ip + ":" + Decimal(port) + "/"
  }

  /** The HTTP candidate of a pair: `http://[user:pwd@]ip:port/video`. */
  function HttpUrl(ip: string, port: nat, c: Credential): string {
    if Embeds(c) then "http://" + c.user + ":" + c.pwd + "@" + ip + ":" + Decimal(port) + "/video"
    else "http://" + ip + ":" + Decimal(port) + "/video"
  }

  /** The RTSP and the HTTP builder for one host and port, as function values. */
  function RtspOf(ip: string, port: nat): Credential -> string {
    c => RtspUrl(ip, port, c)
  }

  function HttpOf(ip: string, port: nat): Credential -> string {
    c => HttpUrl(ip, port, c)
  }

  /** For every pair of the dictionary in order, `first` of it and then `second` of it. */
  function Interleave(creds: seq<Credential>, first: Credential -> string, second: Credential -> string): seq<string>
    decreases |creds|
  {
    if creds == [] then []
    else
      var c := creds[|creds| - 1];
      Interleave(creds[..|creds| - 1], first, second) + [first(c), second(c)]
  }

  /** The candidates of one port, credential by credential. */
  function PortCandidates(ip: string, port: nat, creds: seq<Credential>): seq<string> {
    Interleave(creds, RtspOf(ip, port), HttpOf(ip, port))
  }

  /** The candidates of all ports, port by port. */
  function CandidateUrls(ip: string, ports: seq<nat>, creds: seq<Credential>): seq<string>
    decreases |ports|
  {
    if ports == [] then []
    else CandidateUrls(ip, ports[..|ports| - 1], creds) + PortCandidates(ip, ports[|ports| - 1], creds)
  }

  /**
    `construir_urls(ip, puertos)`: two nested loops appending two URLs per
    (port, credential); `creds` is the dictionary, `DEFAULT_CREDS` at every call.
  */
  method BuildUrls(ip: string, ports: seq<nat>, creds: seq<Credential>) returns (urls: seq<string>)
    ensures urls == CandidateUrls(ip, ports, creds)
  {
    urls := [];
    for i := 0 to |ports|
      invariant urls == CandidateUrls(ip, ports[..i], creds)
    {
      var port := ports[i];
      ghost var before := urls;
      for j := 0 to |creds|
        invariant urls == before + PortCandidates(ip, port, creds[..j])
      {
        var c := creds[j];
        ghost var prev := urls;
        if c.user != "" && c.pwd != "" {
          urls := urls + ["rtsp://" + c.user + ":" + c.pwd + "@" + ip + ":" + Decimal(port) + "/"];
          urls := urls + ["http://" + c.user + ":" + c.pwd + "@" + ip + ":" + Decimal(port) + "/video"];
        } else {
          urls := urls + ["rtsp://" + ip + ":" + Decimal(port) + "/"];
          urls := urls + ["http://" + ip + ":" + Decimal(port) + "/video"];
        }
        assert urls == prev + [RtspUrl(ip, port, c), HttpUrl(ip, port, c)];
        PortCandidatesStep(ip, port, creds, j);
        assert before + (PortCandidates(ip, port, creds[..j]) + [RtspUrl(ip, port, c), HttpUrl(ip, port, c)])
          == prev + [RtspUrl(ip, port, c), HttpUrl(ip, port, c)];
      }
      CandidateUrlsStep(ip, ports, creds, i);
    }
    assert ports[..|ports|] == ports;
  }

  /** One more pair adds its two entries. */
  lemma InterleaveStep(creds: seq<Credential>, first: Credential -> string, second: Credential -> string, j: nat)
    requires j < |creds|
    ensures Interleave(creds[..j + 1], first, second) == Interleave(creds[..j], first, second) + [first(creds[j]), second(creds[j])]
  {
    assert creds[..j + 1][..j] == creds[..j];
  }

  /** One more credential adds its RTSP and HTTP candidates. */
  lemma PortCandidatesStep(ip: string, port: nat, creds: seq<Credential>, j: nat)
    requires j < |creds|
    ensures PortCandidates(ip, port, creds[..j + 1]) ==
      PortCandidates(ip, port, creds[..j]) + [RtspUrl(ip, port, creds[j]), HttpUrl(ip, port, creds[j])]
  {
    InterleaveStep(creds, RtspOf(ip, port), HttpOf(ip, port), j);
  }

  /** One more port adds the block of that port. */
  lemma CandidateUrlsStep(ip: string, ports: seq<nat>, creds: seq<Credential>, i: nat)
    requires i < |ports|
    ensures CandidateUrls(ip, ports[..i + 1], creds) ==
      CandidateUrls(ip, ports[..i], creds) + PortCandidates(ip, ports[i], creds[..|creds|])
  {
    assert ports[..i + 1][..i] == ports[..i];
    assert creds[..|creds|] == creds;
  }

  /** Two entries per pair. */
  lemma {:induction false} InterleaveLength(creds: seq<Credential>, first: Credential -> string, second: Credential -> string)
    ensures |Interleave(creds, first, second)| == 2 * |creds|
    decreases |creds|
  {
    if creds != [] {
      InterleaveLength(creds[..|creds| - 1], first, second);
    }
  }

  /** The entries of pair `j` sit at `2j` and `2j + 1`. */
  lemma {:induction false} InterleaveAt(creds: seq<Credential>, first: Credential -> string, second: Credential -> string, j: nat)
    requires j < |creds|
    ensures 2 * j + 1 < |Interleave(creds, first, second)|
    ensures Interleave(creds, first, second)[2 * j] == first(creds[j])
    ensures Interleave(creds, first, second)[2 * j + 1] == second(creds[j])
    decreases |creds|
  {
    var n := |creds| - 1;
    InterleaveLength(creds[..n], first, second);
    if j < n {
      InterleaveAt(creds[..n], first, second, j);
      assert creds[..n][j] == creds[j];
    }
  }

  /** The pair of credential `j` sits at `2j` and `2j + 1` among the candidates of one port. */
  lemma PortCandidatesAt(ip: string, port: nat, creds: seq<Credential>, j: nat)
    requires j < |creds|
    ensures 2 * j + 1 < |PortCandidates(ip, port, creds)|
    ensures PortCandidates(ip, port, creds)[2 * j] == RtspUrl(ip, port, creds[j])
    ensures PortCandidates(ip, port, creds)[2 * j + 1] == HttpUrl(ip, port, creds[j])
  {
    InterleaveAt(creds, RtspOf(ip, port), HttpOf(ip, port), j);
  }

  /** `2 * |ports| * |creds|` candidates in all. */
  lemma {:induction false} CandidateCount(ip: string, ports: seq<nat>, creds: seq<Credential>)
    ensures |CandidateUrls(ip, ports, creds)| == |ports| * (2 * |creds|)
    decreases |ports|
  {
    if ports != [] {
      var n := |ports| - 1;
      CandidateCount(ip, ports[..n], creds);
      PortCandidateCount(ip, ports[n], creds);
      MulSucc(n, 2 * |creds|);
    }
  }

  lemma PortCandidateCount(ip: string, port: nat, creds: seq<Credential>)
    ensures |PortCandidates(ip, port, creds)| == 2 * |creds|
  {
    InterleaveLength(creds, RtspOf(ip, port), HttpOf(ip, port));
  }

  lemma MulSucc(n: nat, m: nat)
    ensures (n + 1) * m == n * m + m
  {
  }

  /** Index arithmetic for port-major order: entry `k` of block `i` lies before block `n > i`. */
  lemma BlockIndexBelow(i: nat, k: nat, n: nat, w: nat)
    requires i < n && k < w
    ensures i * w + k < n * w
  {
    MulSucc(i, w);
    assert (i + 1) * w <= n * w;
  }

  /** Entry `k` of the block of port `i` is entry `i * 2|creds| + k` of all the candidates. */
  lemma {:induction false} BlockAt(ip: string, ports: seq<nat>, creds: seq<Credential>, i: nat, k: nat)
    requires i < |ports| && k < 2 * |creds|
    ensures i * (2 * |creds|) + k < |CandidateUrls(ip, ports, creds)|
    ensures |PortCandidates(ip, ports[i], creds)| == 2 * |creds|
    ensures CandidateUrls(ip, ports, creds)[i * (2 * |creds|) + k] == PortCandidates(ip, ports[i], creds)[k]
    decreases |ports|
  {
    var n := |ports| - 1;
    var w := 2 * |creds|;
    var prefix := CandidateUrls(ip, ports[..n], creds);
    assert CandidateUrls(ip, ports, creds) == prefix + PortCandidates(ip, ports[n], creds);
    CandidateCount(ip, ports[..n], creds);
    PortCandidateCount(ip, ports[n], creds);
    PortCandidateCount(ip, ports[i], creds);
    if i < n {
      BlockAt(ip, ports[..n], creds, i, k);
      BlockIndexBelow(i, k, n, w);
      assert ports[..n][i] == ports[i];
    }
  }

  /**
    Port-major, then credential order, RTSP before HTTP: the pair of port
    `i` and credential `j` opens that port's block of `2 * |creds|` entries
    at offset `2 * j`, and the HTTP URL follows the RTSP one.
  */
  lemma CandidateAt(ip: string, ports: seq<nat>, creds: seq<Credential>, i: nat, j: nat)
    requires i < |ports| && j < |creds|
    ensures i * (2 * |creds|) + 2 * j + 1 < |CandidateUrls(ip, ports, creds)|
    ensures CandidateUrls(ip, ports, creds)[i * (2 * |creds|) + 2 * j] == RtspUrl(ip, ports[i], creds[j])
    ensures CandidateUrls(ip, ports, creds)[i * (2 * |creds|) + 2 * j + 1] == HttpUrl(ip, ports[i], creds[j])
  {
    BlockAt(ip, ports, creds, i, 2 * j);
    BlockAt(ip, ports, creds, i, 2 * j + 1);
    PortCandidatesAt(ip, ports[i], creds, j);
  }

  /**
    `user:pwd@` appears in a candidate exactly when both fields are
    non-empty; otherwise the anonymous form is emitted.
  */
  lemma CredentialShown(ip: string, port: nat, c: Credential)
    requires '@' !in ip
    ensures ('@' in RtspUrl(ip, port, c)) <==> Embeds(c)
    ensures ('@' in HttpUrl(ip, port, c)) <==> Embeds(c)
    ensures Embeds(c) ==> Occurs(RtspUrl(ip, port, c), c.user + ":" + c.pwd + "@")
    ensures Embeds(c) ==> Occurs(HttpUrl(ip, port, c), c.user + ":" + c.pwd + "@")
  {
    var d := Decimal(port);
    DigitsAvoid(d);
    if Embeds(c) {
      var cred := c.user + ":" + c.pwd + "@";
      Regroup("rtsp://", c.user, c.pwd, ip, d, "/");
      OccursInMiddle("rtsp://", cred, ip + ":" + d + "/");
      Regroup("http://", c.user, c.pwd, ip, d, "/video");
      OccursInMiddle("http://", cred, ip + ":" + d + "/video");
    }
  }

  /** The credential part of a credentialed URL is one contiguous piece. */
  lemma Regroup(scheme: string, user: string, pwd: string, ip: string, d: string, path: string)
    ensures scheme + user + ":" + pwd + "@" + ip + ":" + d + path
      == scheme + (user + ":" + pwd + "@") + (ip + ":" + d + path)
  {
  }

  lemma OccursInMiddle(a: string, p: string, b: string)
    ensures OccursAt(a + p + b, p, |a|)
  {
    assert (a + p + b)[|a|..|a| + |p|] == p;
  }

  /** What the dictionary looks like: eleven credentialed pairs, then `("", "admin")`, one more, then `("", "")`. */
  lemma DictionaryShape()
    ensures |DefaultCreds| == 14
    ensures forall j :: 0 <= j < 11 ==> Embeds(DefaultCreds[j])
    ensures !Embeds(DefaultCreds[11]) && Embeds(DefaultCreds[12]) && !Embeds(DefaultCreds[13])
  {
  }

  /** With a single port, the candidates are that port's block. */
  lemma SinglePort(ip: string, port: nat, creds: seq<Credential>)
    ensures CandidateUrls(ip, [port], creds) == PortCandidates(ip, port, creds)
  {
    assert [port][..0] == [];
  }

  /**
    When every pair before pair `a` is credentialed and pair `a` is not, none
    of the candidates before the anonymous RTSP URL of pair `a` equals it.
  */
  lemma FirstAnonymous(ip: string, port: nat, creds: seq<Credential>, a: nat)
    requires a < |creds| && !Embeds(creds[a])
    requires forall j :: 0 <= j < a ==> Embeds(creds[j])
    ensures 2 * a < |PortCandidates(ip, port, creds)|
    ensures forall k :: 0 <= k < 2 * a ==> PortCandidates(ip, port, creds)[k] != RtspUrl(ip, port, creds[a])
  {
    var urls := PortCandidates(ip, port, creds);
    PortCandidatesAt(ip, port, creds, a);
    forall k | 0 <= k < 2 * a ensures urls[k] != RtspUrl(ip, port, creds[a]) {
      var j := k / 2;
      PortCandidatesAt(ip, port, creds, j);
      EarlierCandidateDiffers(ip, port, creds[j], creds[a]);
    }
  }

  /** The first pair of the dictionary, written into its RTSP candidate. */
  lemma AdminCandidate(ip: string, port: nat)
    ensures RtspUrl(ip, port, Credential("admin", "admin")) == "rtsp://admin:admin@" + ip + ":" + Decimal(port) + "/"
  {
    var d := Decimal(port);
    assert "rtsp://" + "admin" + ":" + "admin" + "@" == "rtsp://admin:admin@";
    assert RtspUrl(ip, port, Credential("admin", "admin")) == ("rtsp://" + "admin" + ":" + "admin" + "@") + ip + ":" + d + "/";
  }

  /**
    The dictionary puts eleven credentialed pairs before the first anonymous
    one, so for a single port the anonymous RTSP candidate is tried 23rd, and
    the pairs `("", "admin")` and `("", "")` give the same two URLs.
  */
  lemma AnonymousCandidatePosition(ip: string, port: nat)
    ensures |CandidateUrls(ip, [port], DefaultCreds)| == 28
    ensures CandidateUrls(ip, [port], DefaultCreds)[0] == "rtsp://admin:admin@" + ip + ":" + Decimal(port) + "/"
    ensures CandidateUrls(ip, [port], DefaultCreds)[22] == "rtsp://" + ip + ":" + Decimal(port) + "/"
    ensures CandidateUrls(ip, [port], DefaultCreds)[26] == CandidateUrls(ip, [port], DefaultCreds)[22]
    ensures forall k :: 0 <= k < 22 ==> CandidateUrls(ip, [port], DefaultCreds)[k] != CandidateUrls(ip, [port], DefaultCreds)[22]
  {
    SinglePort(ip, port, DefaultCreds);
    DictionaryShape();
    PortCandidateCount(ip, port, DefaultCreds);
    PortCandidatesAt(ip, port, DefaultCreds, 0);
    AdminCandidate(ip, port);
    PortCandidatesAt(ip, port, DefaultCreds, 11);
    PortCandidatesAt(ip, port, DefaultCreds, 13);
    FirstAnonymous(ip, port, DefaultCreds, 11);
  }

  /** A credentialed candidate never equals the anonymous RTSP candidate. */
  lemma EarlierCandidateDiffers(ip: string, port: nat, c: Credential, anon: Credential)
    requires Embeds(c) && !Embeds(anon)
    ensures RtspUrl(ip, port, c) != RtspUrl(ip, port, anon)
    ensures HttpUrl(ip, port, c) != RtspUrl(ip, port, anon)
  {
    assert |RtspUrl(ip, port, c)| > |RtspUrl(ip, port, anon)|;
    assert HttpUrl(ip, port, c)[0] != RtspUrl(ip, port, anon)[0];
  }
}
