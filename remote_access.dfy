/**
  Remote access to a saved camera: splitting its URL into address, port and
  credentials (`generar_acceso_remoto`), and the list of access methods
  offered for it (`generar_url_remota`).
*/
module RemoteAccess {
  import opened Common
  import opened Text
  import opened ScanConfig
  import opened Candidates
  import Registry

  /** What the URL parsing extracts: address, port text, user and password. */
  datatype CameraAddress = CameraAddress(ip: string, port: string, user: string, pwd: string)

  /** The port assumed when the URL names none. */
  const DefaultPort := "554"

  /** `url.replace('rtsp://', '').replace('http://', '')`: both scheme texts removed wherever they occur. */
  function StripSchemes(url: string): string {
    RemoveAll(RemoveAll(url, "rtsp://"), "http://")
  }

  /** Address and port of an `ip[:port[/path]]` text; the port defaults to 554 when no `:` follows the address. */
  function HostAndPort(hostPart: string): (string, string) {
    var pieces := Split(hostPart, ':');
    (pieces[0], if |pieces| > 1 then Split(pieces[1], '/')[0] else DefaultPort)
  }

  /**
    The `user:pwd` part: `None` when a `:` is present but the text does not
    split into exactly two pieces (the tuple unpacking raises); no `:` means
    empty credentials.
  */
  function Credentials(creds: string): Option<(string, string)> {
    if ':' in creds then
      var pieces := Split(creds, ':');
      if |pieces| != 2 then None else Some((pieces[0], pieces[1]))
    else Some(("", ""))
  }

  /** The text after the schemes when it holds `@`: exactly one `@` is accepted. */
  function ParseCredentialed(rest: string): Option<CameraAddress> {
    var pieces := Split(rest, '@');
    if |pieces| != 2 then None
    else
      match Credentials(pieces[0])
      case None => None
      case Some((user, pwd)) =>
        var (ip, port) := HostAndPort(pieces[1]);
        Some(CameraAddress(ip, port, user, pwd))
  }

  /**
    The parsing as written: without `@`, only the address is taken from the
    text and the port is always 554. `None` stands for the `ValueError` the
    unpacking raises.
  */
  function ParseCameraUrlAsWritten(url: string): (r: Option<CameraAddress>)
    ensures '@' !in StripSchemes(url) ==> r.Some? && r.value.port == DefaultPort && r.value.user == "" && r.value.pwd == ""
    ensures '@' in StripSchemes(url) && r.Some? ==> |Split(StripSchemes(url), '@')| == 2
  {
    var rest := StripSchemes(url);
    if '@' in rest then ParseCredentialed(rest)
    else Some(CameraAddress(Split(rest, ':')[0], DefaultPort, "", ""))
  }

  /** The parsing as evidently intended: without `@`, the port is read from the text as in the `@` branch. */
  function ParseCameraUrl(url: string): (r: Option<CameraAddress>)
    ensures r.Some? <==> ParseCameraUrlAsWritten(url).Some?
    ensures r.Some? && '@' in StripSchemes(url) ==> ParseCameraUrlAsWritten(url).value == r.value
    ensures r.Some? && '@' !in StripSchemes(url) ==> ParseCameraUrlAsWritten(url).value == r.value.(port := DefaultPort)
    ensures '@' !in StripSchemes(url) ==> r.Some? && r.value.user == "" && r.value.pwd == ""
  {
    var rest := StripSchemes(url);
    if '@' in rest then ParseCredentialed(rest)
    else
      var (ip, port) := HostAndPort(rest);
      Some(CameraAddress(ip, port, "", ""))
  }

  /** A URL component without any of the separators the parsing splits at. */
  predicate Plain(s: string) {
    ':' !in s && '@' !in s && '/' !in s
  }

  /** No two consecutive slashes. */
  predicate NoDoubleSlash(s: string) {
    forall k :: 0 <= k < |s| - 1 ==> !(s[k] == '/' && s[k + 1] == '/')
  }

  /** A scheme text, which ends in `//`, cannot occur in a text without `//`. */
  lemma SchemeAbsent(s: string, scheme: string)
    requires NoDoubleSlash(s)
    requires |scheme| == 7 && scheme[5] == '/' && scheme[6] == '/'
    ensures !Occurs(s, scheme)
  {
    forall i | 0 <= i && i + 7 <= |s|
      ensures !OccursAt(s, scheme, i)
    {
      assert s[i..i + 7][5] == s[i + 5] && s[i..i + 7][6] == s[i + 6];
    }
  }

  /** After `http://`, a text without `//` that does not start with `/` holds no `rtsp://`. */
  lemma NoRtspAfterHttp(rest: string)
    requires NoDoubleSlash(rest) && (rest == [] || rest[0] != '/')
    ensures !Occurs("http://" + rest, "rtsp://")
  {
    var s := "http://" + rest;
    forall i | 0 <= i && i + 7 <= |s|
      ensures !OccursAt(s, "rtsp://", i)
    {
      var w := s[i..i + 7];
      if i == 0 {
        assert w[0] == 'h';
      } else if i == 1 {
        assert w[6] == rest[0];
      } else {
        assert w[5] == rest[i - 2] && w[6] == rest[i - 1];
      }
    }
  }

  /** Stripping the schemes from `scheme + rest` leaves `rest`, when `rest` holds no `//` and does not start with `/`. */
  lemma StripLeadingScheme(scheme: string, rest: string)
    requires scheme == "rtsp://" || scheme == "http://"
    requires NoDoubleSlash(rest) && (rest == [] || rest[0] != '/')
    ensures StripSchemes(scheme + rest) == rest
  {
    SchemeAbsent(rest, "rtsp://");
    SchemeAbsent(rest, "http://");
    RemoveAllAbsent(rest, "rtsp://");
    RemoveAllAbsent(rest, "http://");
    if scheme == "rtsp://" {
      RemoveAllLeading("rtsp://", rest);
    } else {
      NoRtspAfterHttp(rest);
      RemoveAllAbsent("http://" + rest, "rtsp://");
      RemoveAllLeading("http://", rest);
    }
  }

  /** The candidate paths: `/` for RTSP, `/video` for HTTP. */
  predicate CandidatePath(path: string) {
    path == "/" || path == "/video"
  }

  /** A `port/path` tail splits into itself at `:` and gives its digits before the `/`. */
  lemma PortTail(d: string, path: string)
    requires AllDigits(d) && |d| >= 1 && CandidatePath(path)
    ensures Split(d + path, ':') == [d + path]
    ensures Split(d + path, '/')[0] == d
  {
    assert ':' !in d + path by {
      DigitsAvoid(d);
    }
    SplitAbsent(d + path, ':');
    assert Split(d + path, '/')[0] == d by {
      DigitsAvoid(d);
      assert d + path == d + ['/'] + path[1..];
      SplitAt(d, '/', path[1..]);
    }
  }

  /** The address and port of `ip:port/path`. */
  lemma HostAndPortOf(ip: string, d: string, path: string)
    requires Plain(ip) && AllDigits(d) && |d| >= 1 && CandidatePath(path)
    ensures HostAndPort(ip + ":" + d + path) == (ip, d)
  {
    PortTail(d, path);
    assert ip + ":" + d + path == ip + [':'] + (d + path);
    SplitAt(ip, ':', d + path);
  }

  /** The text after the scheme of a credentialed candidate is parsed back into its parts. */
  lemma ParseCredentialedOf(user: string, pwd: string, ip: string, d: string, path: string)
    requires Plain(user) && Plain(pwd) && Plain(ip) && AllDigits(d) && |d| >= 1 && CandidatePath(path)
    ensures ParseCredentialed(user + ":" + pwd + "@" + (ip + ":" + d + path)) == Some(CameraAddress(ip, d, user, pwd))
  {
    var creds := user + ":" + pwd;
    var host := ip + ":" + d + path;
    DigitsAvoid(d);
    assert '@' !in creds;
    assert '@' !in host;
    assert user + ":" + pwd + "@" + host == creds + ['@'] + host;
    SplitAt(creds, '@', host);
    SplitAbsent(host, '@');
    assert creds == user + [':'] + pwd;
    SplitAt(user, ':', pwd);
    SplitAbsent(pwd, ':');
    assert ':' in creds by {
      assert creds[|user|] == ':';
    }
    HostAndPortOf(ip, d, path);
  }

  /** The text after the scheme of a candidate holds no `//` and does not start with `/`. */
  lemma CandidateRestShape(front: string, d: string, path: string)
    requires front != [] && '/' !in front && AllDigits(d) && CandidatePath(path)
    ensures NoDoubleSlash(front + d + path)
    ensures (front + d + path)[0] != '/'
  {
    DigitsAvoid(d);
    var s := front + d + path;
    assert s[0] == front[0];
    forall k | 0 <= k < |s| - 1
      ensures !(s[k] == '/' && s[k + 1] == '/')
    {
      if k < |front + d| {
        assert s[k] == (front + d)[k];
        assert (front + d)[k] in front + d;
      } else {
        assert s[k + 1] == path[k + 1 - |front + d|];
      }
    }
  }

  /**
    The intended parsing reads every candidate URL back into the address,
    the port and the credentials it was built from (empty credentials for the
    anonymous form), whenever the address and the credentials hold none of
    the separators.
  */
  lemma ParseCandidate(ip: string, port: nat, c: Credential)
    requires Plain(ip) && ip != [] && Plain(c.user) && Plain(c.pwd)
    ensures ParseCameraUrl(RtspUrl(ip, port, c)) ==
      Some(CameraAddress(ip, Decimal(port), if Embeds(c) then c.user else "", if Embeds(c) then c.pwd else ""))
    ensures ParseCameraUrl(HttpUrl(ip, port, c)) ==
      Some(CameraAddress(ip, Decimal(port), if Embeds(c) then c.user else "", if Embeds(c) then c.pwd else ""))
  {
    var d := Decimal(port);
    if Embeds(c) {
      ParseCredentialedUrl("rtsp://", "/", c.user, c.pwd, ip, d);
      ParseCredentialedUrl("http://", "/video", c.user, c.pwd, ip, d);
    } else {
      ParseAnonymousUrl("rtsp://", "/", ip, d);
      ParseAnonymousUrl("http://", "/video", ip, d);
    }
  }

  /** With an `@` left after the schemes, both parsings take the credentialed branch. */
  lemma ParseWithAt(url: string, rest: string)
    requires StripSchemes(url) == rest && '@' in rest
    ensures ParseCameraUrl(url) == ParseCredentialed(rest)
    ensures ParseCameraUrlAsWritten(url) == ParseCredentialed(rest)
  {
  }

  /** Both parsings read a credentialed candidate back into its parts. */
  lemma ParseCredentialedUrl(scheme: string, path: string, user: string, pwd: string, ip: string, d: string)
    requires (scheme == "rtsp://" && path == "/") || (scheme == "http://" && path == "/video")
    requires Plain(user) && user != [] && Plain(pwd) && Plain(ip) && AllDigits(d) && |d| >= 1
    ensures ParseCameraUrl(scheme + user + ":" + pwd + "@" + ip + ":" + d + path) == Some(CameraAddress(ip, d, user, pwd))
    ensures ParseCameraUrlAsWritten(scheme + user + ":" + pwd + "@" + ip + ":" + d + path) == Some(CameraAddress(ip, d, user, pwd))
  {
    var url := scheme + user + ":" + pwd + "@" + ip + ":" + d + path;
    var host := ip + ":" + d + path;
    var rest := user + ":" + pwd + "@" + host;
    CredentialedRest(scheme, path, user, pwd, ip, d);
    ParseWithAt(url, rest);
    ParseCredentialedOf(user, pwd, ip, d, path);
  }

  /** Stripping the scheme of a credentialed candidate leaves a text with an `@`. */
  lemma CredentialedRest(scheme: string, path: string, user: string, pwd: string, ip: string, d: string)
    requires (scheme == "rtsp://" && path == "/") || (scheme == "http://" && path == "/video")
    requires Plain(user) && user != [] && Plain(pwd) && Plain(ip) && AllDigits(d) && |d| >= 1
    ensures StripSchemes(scheme + user + ":" + pwd + "@" + ip + ":" + d + path) == user + ":" + pwd + "@" + (ip + ":" + d + path)
    ensures '@' in user + ":" + pwd + "@" + (ip + ":" + d + path)
  {
    var front := user + ":" + pwd + "@" + ip + ":";
    var rest := front + d + path;
    CandidateRestShape(front, d, path);
    assert scheme + user + ":" + pwd + "@" + ip + ":" + d + path == scheme + rest;
    StripLeadingScheme(scheme, rest);
    assert rest == user + ":" + pwd + "@" + (ip + ":" + d + path);
    assert rest[|user| + 1 + |pwd|] == '@';
  }

  /** The intended parsing reads the port of an anonymous candidate; as written the port is 554. */
  lemma ParseAnonymousUrl(scheme: string, path: string, ip: string, d: string)
    requires (scheme == "rtsp://" && path == "/") || (scheme == "http://" && path == "/video")
    requires Plain(ip) && ip != [] && AllDigits(d) && |d| >= 1
    ensures ParseCameraUrl(scheme + ip + ":" + d + path) == Some(CameraAddress(ip, d, "", ""))
    ensures ParseCameraUrlAsWritten(scheme + ip + ":" + d + path) == Some(CameraAddress(ip, DefaultPort, "", ""))
  {
    var rest := ip + ":" + d + path;
    CandidateRestShape(ip + ":", d, path);
    assert scheme + ip + ":" + d + path == scheme + rest;
    StripLeadingScheme(scheme, rest);
    AnonymousRest(ip, d, path);
  }

  /** The text after the scheme of an anonymous candidate: no `@`, the address first, then the port. */
  lemma AnonymousRest(ip: string, d: string, path: string)
    requires Plain(ip) && AllDigits(d) && |d| >= 1 && CandidatePath(path)
    ensures '@' !in ip + ":" + d + path
    ensures HostAndPort(ip + ":" + d + path) == (ip, d)
    ensures Split(ip + ":" + d + path, ':')[0] == ip
  {
    DigitsAvoid(d);
    HostAndPortOf(ip, d, path);
  }

  /**
    As written, the port of an anonymous URL is lost: the anonymous RTSP
    candidate on port 8080 is parsed with port 554, while the credentialed
    candidates keep their port.
  */
  lemma AnonymousPortLost(ip: string)
    requires Plain(ip) && ip != []
    ensures ParseCameraUrlAsWritten(RtspUrl(ip, 8080, Credential("", ""))) == Some(CameraAddress(ip, "554", "", ""))
    ensures ParseCameraUrl(RtspUrl(ip, 8080, Credential("", ""))) == Some(CameraAddress(ip, "8080", "", ""))
  {
    ParseAnonymousUrl("rtsp://", "/", ip, "8080");
    assert Decimal(8080) == "8080" by {
      assert Decimal(808) == Decimal(80) + [Digit(8)];
      assert Decimal(80) == Decimal(8) + [Digit(0)];
    }
  }

  /** One access method offered for a saved camera. */
  datatype AccessMethod = AccessMethod(kind: string, url: string, description: string, note: string)

  /** The RTSP URL of the access methods; the credentials are always written, even when empty. */
  function AccessUrl(user: string, pwd: string, host: string, port: string): string {
    "rtsp://" + user + ":" + pwd + "@" + host + ":" + port + "/"
  }

  /** The port-forwarding method, offered when the public address is known. */
  function PublicMethod(localIp: string, port: string, user: string, pwd: string, publicIp: string): AccessMethod {
    AccessMethod("IP Pública + Port Forwarding", AccessUrl(user, pwd, publicIp, port),
                 "Requiere configurar port forwarding en el router",
                 "Configurar redirección del puerto " + port + " hacia " + localIp)
  }

  /** The local method. */
  function LocalMethod(localIp: string, port: string, user: string, pwd: string): AccessMethod {
    AccessMethod("Acceso Local", AccessUrl(user, pwd, localIp, port),
                 "Solo funciona dentro de la red local", "Para referencia y pruebas locales")
  }

  /** The tunnel suggestion, whose description is the literal text with `{puerto}` in it. */
  function TunnelMethod(port: string): AccessMethod {
    AccessMethod("Túnel Ngrok", "Configurar ngrok para exponer puerto " + port,
                 "Usar ngrok tcp {puerto} para crear túnel", "Proporciona acceso temporal desde internet")
  }

  /**
    `generar_url_remota`: the port-forwarding method when the public address
    was obtained (`publicIp`, `None` when the request failed), then the local
    method, then the tunnel suggestion. There are three methods with a public
    address and two without; the last two are always the local and the
    tunnel methods, and the first, when present, points at the public
    address with the same port and credentials.
  */
  function AccessMethods(localIp: string, port: string, user: string, pwd: string, publicIp: Option<string>): (r: seq<AccessMethod>)
    ensures |r| == (if publicIp.Some? then 3 else 2)
    ensures r[|r| - 2].kind == "Acceso Local" && r[|r| - 2].url == AccessUrl(user, pwd, localIp, port)
    ensures r[|r| - 1].kind == "Túnel Ngrok"
    ensures publicIp.Some? ==> r[0].kind == "IP Pública + Port Forwarding" && r[0].url == AccessUrl(user, pwd, publicIp.value, port)
  {
    var public := match publicIp
      case None => []
      case Some(p) => [PublicMethod(localIp, port, user, pwd, p)];
    public + [LocalMethod(localIp, port, user, pwd), TunnelMethod(port)]
  }

  /**
    The remote-access handler: the selected record's URL is parsed as
    written (a `ValueError` ends the handler before anything else), then a
    `CameraManager()` is built, which reloads the global list from the file
    (an unreadable file ends the handler), and the access methods of the
    parsed address are listed. The record was taken before the reload.
  */
  function RemoteAccessDialog(st: Registry.RegistryState, index: nat, publicIp: Option<string>): (Registry.RegistryState, Option<seq<AccessMethod>>)
    requires index < |st.cameras|
  {
    match ParseCameraUrlAsWritten(st.cameras[index].url)
    case None => (st, None)
    case Some(a) =>
      if Registry.LoadRaises(st) then (st, None)
      else (Registry.AfterLoad(st), Some(AccessMethods(a.ip, a.port, a.user, a.pwd, publicIp)))
  }

  /**
    The handler's reload leaves a consistent registry as it was, but with a
    missing or undecodable file it empties the global list; the methods are
    listed exactly when the URL parses and the file can be read, and then
    they are those of the selected record's address.
  */
  lemma RemoteAccessReloads(st: Registry.RegistryState, index: nat, publicIp: Option<string>)
    requires index < |st.cameras|
    ensures Registry.Consistent(st) ==> RemoteAccessDialog(st, index, publicIp).0 == st
    ensures ParseCameraUrlAsWritten(st.cameras[index].url).Some? && (st.file == Registry.Missing || st.file == Registry.Undecodable) ==>
      RemoteAccessDialog(st, index, publicIp).0.cameras == []
    ensures RemoteAccessDialog(st, index, publicIp).1.Some? <==>
      ParseCameraUrlAsWritten(st.cameras[index].url).Some? && !Registry.LoadRaises(st)
    ensures var a := ParseCameraUrlAsWritten(st.cameras[index].url);
      RemoteAccessDialog(st, index, publicIp).1.Some? ==>
        RemoteAccessDialog(st, index, publicIp).1.value == AccessMethods(a.value.ip, a.value.port, a.value.user, a.value.pwd, publicIp)
  {
    var r := RemoteAccessDialog(st, index, publicIp);
    match ParseCameraUrlAsWritten(st.cameras[index].url)
    case None =>
      assert r == (st, None);
    case Some(a) =>
      if Registry.LoadRaises(st) {
        assert r == (st, None);
      } else {
        assert r == (Registry.AfterLoad(st), Some(AccessMethods(a.ip, a.port, a.user, a.pwd, publicIp)));
      }
  }

  /**
    The local method reproduces the saved URL of a credentialed RTSP camera
    whose parts hold no separators, once the URL has been parsed; for an
    anonymous camera it gives `rtsp://:@ip:554/` instead.
  */
  lemma LocalMethodOfCandidate(ip: string, port: nat, c: Credential)
    requires Plain(ip) && ip != [] && Plain(c.user) && Plain(c.pwd)
    ensures ParseCameraUrlAsWritten(RtspUrl(ip, port, c)).Some?
    ensures var a := ParseCameraUrlAsWritten(RtspUrl(ip, port, c)).value;
      Embeds(c) ==> AccessUrl(a.user, a.pwd, a.ip, a.port) == RtspUrl(ip, port, c)
    ensures var a := ParseCameraUrlAsWritten(RtspUrl(ip, port, c)).value;
      !Embeds(c) ==> AccessUrl(a.user, a.pwd, a.ip, a.port) == "rtsp://:@" + ip + ":554/"
  {
    var d := Decimal(port);
    if Embeds(c) {
      ParseCredentialedUrl("rtsp://", "/", c.user, c.pwd, ip, d);
    } else {
      ParseAnonymousUrl("rtsp://", "/", ip, d);
    }
  }
}
