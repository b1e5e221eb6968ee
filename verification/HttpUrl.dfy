/** URLs as the HTTP client reads and prints them. */
module HttpUrl {
  import opened Wrappers
  import opened AtParser
  import opened Text

  datatype ParsedUrl = ParsedUrl(tls: bool, host: string, port: int, path: string)

  function DefaultPort(tls: bool): int
  {
    if tls then 443 else 80
  }

  /** Where the authority ends: at the first '/' or '?'. */
  function AuthorityEnd(rest: string): (at: nat)
    ensures at <= |rest|
    ensures forall k :: 0 <= k < at ==> rest[k] != '/' && rest[k] != '?'
    ensures at < |rest| ==> rest[at] == '/' || rest[at] == '?'
  {
    if rest == "" || rest[0] == '/' || rest[0] == '?' then 0 else 1 + AuthorityEnd(rest[1..])
  }

  /** "host" or "host:port", split at the last colon. */
  function ParseHostPort(bare: string, tls: bool): Option<(string, int)>
  {
    var colon := FindLast(bare, ':');
    if colon == |bare| then
      if bare == "" then None else Some((bare, DefaultPort(tls)))
    else
      var port := ParseInt(bare[colon + 1..]);
      if port.None? || port.value <= 0 || port.value > 65535 || bare[..colon] == "" then None
      else Some((bare[..colon], port.value))
  }

  /** Host and port of an authority. Userinfo is discarded. */
  function ParseAuthority(authority: string, tls: bool): Option<(string, int)>
  {
    if authority == "" then None
    else
      var at := Find(authority, '@');
      ParseHostPort(if at < |authority| then authority[at + 1..] else authority, tls)
  }

  function PathOf(rest: string): string
  {
    var end := AuthorityEnd(rest);
    if end == |rest| then "/"
    else if rest[end] == '?' then "/" + rest[end..]
    else rest[end..]
  }

  function ParseUrl(url: string): Option<ParsedUrl>
  {
    if !StartsWith(url, "http://") && !StartsWith(url, "https://") then None
    else
      var tls := !StartsWith(url, "http://");
      var rest := if tls then url[8..] else url[7..];
      match ParseAuthority(rest[..AuthorityEnd(rest)], tls)
      case None => None
      case Some((host, port)) => Some(ParsedUrl(tls, host, port, PathOf(rest)))
  }

  /** What every URL that parses looks like. */
  predicate WellFormed(u: ParsedUrl)
  {
    && u.host != ""
    && (forall k :: 0 <= k < |u.host| ==> u.host[k] != '/' && u.host[k] != '?')
    && 0 < u.port <= 65535
    && u.path != "" && u.path[0] == '/'
  }

  lemma HostComesFromAuthority(authority: string, tls: bool)
    requires forall k :: 0 <= k < |authority| ==> authority[k] != '/' && authority[k] != '?'
    requires ParseAuthority(authority, tls).Some?
    ensures var (host, port) := ParseAuthority(authority, tls).value;
            && host != "" && 0 < port <= 65535
            && forall k :: 0 <= k < |host| ==> host[k] != '/' && host[k] != '?'
  {
    hide Find, FindLast, ParseInt;
  }

  lemma ParsedIsWellFormed(url: string)
    requires ParseUrl(url).Some?
    ensures WellFormed(ParseUrl(url).value)
  {
    hide AuthorityEnd, ParseAuthority;
    var tls := !StartsWith(url, "http://");
    var rest := if tls then url[8..] else url[7..];
    HostComesFromAuthority(rest[..AuthorityEnd(rest)], tls);
  }

  // ---------------------------------------------------------------------------
  // A URL as it is written
  // ---------------------------------------------------------------------------

  /** A URL by its parts, as anybody may write it. */
  datatype Written = Written(secure: bool, user: Option<string>, host: string, port: Option<nat>, rest: string)

  predicate WrittenOk(w: Written)
  {
    && w.host != "" && '@' !in w.host && '/' !in w.host && '?' !in w.host && ':' !in w.host
    && (w.user.Some? ==> '@' !in w.user.value && '/' !in w.user.value && '?' !in w.user.value)
    && (w.port.Some? ==> 0 < w.port.value <= 65535)
    && (w.rest == "" || w.rest[0] == '/' || w.rest[0] == '?')
  }

  function Authority(w: Written): string
  {
    (if w.user.Some? then w.user.value + "@" else "") + (w.host + if w.port.Some? then ":" + Decimal(w.port.value) else "")
  }

  function UrlText(w: Written): string
  {
    (if w.secure then "https://" else "http://") + (Authority(w) + w.rest)
  }

  lemma BareIsRead(w: Written)
    requires WrittenOk(w)
    ensures ParseHostPort(w.host + if w.port.Some? then ":" + Decimal(w.port.value) else "", w.secure)
         == Some((w.host, if w.port.Some? then w.port.value else if w.secure then 443 else 80))
  {
    hide FindLast, ParseInt, Decimal;
    if w.port.Some? {
      ReadWithPort(w.host, w.port.value, w.secure);
    } else {
      assert w.host + "" == w.host;
      ReadWithoutPort(w.host, w.secure);
    }
  }

  lemma AuthorityIsRead(w: Written)
    requires WrittenOk(w)
    ensures ParseAuthority(Authority(w), w.secure) == Some((w.host, if w.port.Some? then w.port.value else if w.secure then 443 else 80))
    ensures forall k :: 0 <= k < |Authority(w)| ==> Authority(w)[k] != '/' && Authority(w)[k] != '?'
  {
    hide ParseHostPort, Find, Decimal;
    var bare := w.host + if w.port.Some? then ":" + Decimal(w.port.value) else "";
    BareIsRead(w);
    BareIsPlain(w);
    var a := Authority(w);
    if w.user.Some? {
      var user := w.user.value;
      assert a == user + ("@" + bare);
      assert forall k :: 0 <= k < |user| ==> user[k] in user;
      DividedAt(user, '@', bare);
      assert forall k :: 0 <= k < |user| ==> a[k] == user[k];
      assert a[|user|] == '@' && forall k :: |user| < k < |a| ==> a[k] == bare[k - |user| - 1];
    } else {
      assert a == bare;
      FindNone(a, '@');
    }
  }

  lemma BareIsPlain(w: Written)
    requires WrittenOk(w)
    ensures var bare := w.host + if w.port.Some? then ":" + Decimal(w.port.value) else "";
            bare != "" && forall k :: 0 <= k < |bare| ==> bare[k] != '@' && bare[k] != '/' && bare[k] != '?'
  {
    hide Decimal;
    var bare := w.host + if w.port.Some? then ":" + Decimal(w.port.value) else "";
    forall k | 0 <= k < |bare| ensures bare[k] != '@' && bare[k] != '/' && bare[k] != '?' {
      if k < |w.host| {
        assert bare[k] == w.host[k] && w.host[k] in w.host;
      } else if k > |w.host| {
        assert bare[k] == Decimal(w.port.value)[k - |w.host| - 1] && IsDigit(bare[k]);
      }
    }
  }

  /**
   A URL is read as it is written: the scheme, the host, the port or 443 or 80 for it, and
   the path, which is "/" where none is given. A user in front of the host is dropped.
   */
  lemma UrlIsRead(w: Written)
    requires WrittenOk(w)
    ensures ParseUrl(UrlText(w)) ==
            Some(ParsedUrl(w.secure, w.host, if w.port.Some? then w.port.value else if w.secure then 443 else 80,
                           if w.rest != "" && w.rest[0] == '/' then w.rest else "/" + w.rest))
  {
    hide ParseAuthority, Decimal, Authority, AuthorityEnd;
    AuthorityIsRead(w);
    var a := Authority(w);
    SchemeIsRead(w.secure, a + w.rest);
    AuthorityEnds(a, w.rest);
  }

  lemma AuthorityEnds(a: string, rest: string)
    requires forall k :: 0 <= k < |a| ==> a[k] != '/' && a[k] != '?'
    requires rest == "" || rest[0] == '/' || rest[0] == '?'
    ensures AuthorityEnd(a + rest) == |a| && (a + rest)[..|a|] == a && (a + rest)[|a|..] == rest
    ensures PathOf(a + rest) == if rest != "" && rest[0] == '/' then rest else "/" + rest
  {
    hide AuthorityEnd;
    var s := a + rest;
    assert forall k :: 0 <= k < |a| ==> s[k] == a[k];
    assert rest != "" ==> s[|a|] == rest[0];
    assert s[..|a|] == a && s[|a|..] == rest;
    assert rest == "" ==> "/" + rest == "/";
  }

  /** A port that ParseUrl would fill in by itself is left out. */
  function PortSuffix(u: ParsedUrl): string
    requires u.port > 0
  {
    if u.port == DefaultPort(u.tls) then "" else ":" + Decimal(u.port)
  }

  function PrintAuthority(u: ParsedUrl): string
    requires u.port > 0
  {
    u.host + PortSuffix(u)
  }

  function Scheme(tls: bool): string
  {
    if tls then "https://" else "http://"
  }

  function PrintUrl(u: ParsedUrl): string
    requires u.port > 0
  {
    Scheme(u.tls) + (PrintAuthority(u) + u.path)
  }

  /** A host that survives being printed in front of its port and read back. */
  predicate Printable(u: ParsedUrl)
  {
    '@' !in u.host && (':' !in u.host || u.port != DefaultPort(u.tls))
  }

  lemma LastIs(s: string, c: char, at: nat)
    requires at < |s| && s[at] == c
    requires forall k :: at < k < |s| ==> s[k] != c
    ensures FindLast(s, c) == at
  {
    hide FindLast;
  }

  lemma LastColon(host: string, digits: string)
    requires forall k :: 0 <= k < |digits| ==> digits[k] != ':'
    ensures FindLast(host + (":" + digits), ':') == |host|
    ensures (host + (":" + digits))[|host| + 1..] == digits
    ensures (host + (":" + digits))[..|host|] == host
  {
    hide FindLast;
    var bare := host + (":" + digits);
    forall k | |host| < k < |bare| ensures bare[k] != ':' {
      assert bare[k] == digits[k - |host| - 1];
    }
    LastIs(bare, ':', |host|);
  }

  lemma ReadWithPort(host: string, port: int, tls: bool)
    requires 0 < port <= 65535
    ensures ParseHostPort(host + (":" + Decimal(port)), tls) == if host == "" then None else Some((host, port))
  {
    hide Decimal, ParseInt, FindLast;
    LastColon(host, Decimal(port));
    ParseUndoesDecimal(port);
  }

  lemma ReadWithoutPort(host: string, tls: bool)
    ensures ':' !in host && host != "" ==> ParseHostPort(host, tls) == Some((host, DefaultPort(tls)))
    ensures ':' in host && ParseHostPort(host, tls).Some? ==> |ParseHostPort(host, tls).value.0| < |host|
  {
    var colon := FindLast(host, ':');
    assert colon < |host| ==> host[colon] in host;
  }

  lemma ReadHostPort(host: string, u: ParsedUrl)
    requires 0 < u.port <= 65535
    ensures var r := ParseHostPort(host + PortSuffix(u), u.tls);
            && (r.Some? ==> |r.value.0| <= |host|)
            && (host != "" ==> (r == Some((host, u.port)) <==> ':' !in host || u.port != DefaultPort(u.tls)))
  {
    if u.port == DefaultPort(u.tls) {
      assert host + "" == host;
      ReadWithoutPort(host, u.tls);
    } else {
      ReadWithPort(host, u.port, u.tls);
    }
  }

  lemma AtInPrinted(u: ParsedUrl)
    requires u.port > 0
    ensures var printed, at := PrintAuthority(u), Find(u.host, '@');
            Find(printed, '@') == if at < |u.host| then at else |printed|
  {
    var printed, at := PrintAuthority(u), Find(u.host, '@');
    forall k | 0 <= k < |printed| && (k < at || at == |u.host|) ensures printed[k] != '@' {
      if k > |u.host| {
        assert printed[k] == Decimal(u.port)[k - |u.host| - 1] && IsDigit(printed[k]);
      } else if k < |u.host| {
        assert printed[k] == u.host[k];
      }
    }
    assert at < |u.host| ==> printed[at] == '@';
  }

  lemma AuthorityRoundTrip(u: ParsedUrl)
    requires WellFormed(u)
    ensures ParseAuthority(PrintAuthority(u), u.tls) == Some((u.host, u.port)) <==> Printable(u)
  {
    hide ParseHostPort, PortSuffix;
    var printed, at := PrintAuthority(u), Find(u.host, '@');
    AtInPrinted(u);
    if at < |u.host| {
      assert u.host[at] in u.host;
      assert printed[at + 1..] == u.host[at + 1..] + PortSuffix(u);
      ReadHostPort(u.host[at + 1..], u);
    } else {
      ReadHostPort(u.host, u);
    }
  }

  lemma NoSlashInPrinted(u: ParsedUrl)
    requires WellFormed(u)
    ensures forall k :: 0 <= k < |PrintAuthority(u)| ==> PrintAuthority(u)[k] != '/' && PrintAuthority(u)[k] != '?'
  {
    var printed := PrintAuthority(u);
    forall k | 0 <= k < |printed| ensures printed[k] != '/' && printed[k] != '?' {
      if k > |u.host| {
        assert printed[k] == Decimal(u.port)[k - |u.host| - 1] && IsDigit(printed[k]);
      } else if k < |u.host| {
        assert printed[k] == u.host[k];
      }
    }
  }

  lemma ParseUrlOf(tls: bool, authority: string, path: string)
    requires forall k :: 0 <= k < |authority| ==> authority[k] != '/' && authority[k] != '?'
    requires path != "" && path[0] == '/'
    ensures ParseUrl(Scheme(tls) + (authority + path)) ==
            match ParseAuthority(authority, tls)
            case None => None
            case Some((host, port)) => Some(ParsedUrl(tls, host, port, path))
  {
    hide ParseAuthority;
    var rest := authority + path;
    SchemeIsRead(tls, rest);
    assert rest[|authority|] == '/';
    assert forall k :: 0 <= k < |authority| ==> rest[k] == authority[k];
    assert AuthorityEnd(rest) == |authority|;
    assert rest[..|authority|] == authority && rest[|authority|..] == path;
  }

  /**
   Printing a URL and parsing it again gives the URL back exactly for the hosts that
   hold no '@', and no ':' either unless the port is written behind it.
   */
  lemma PrintParseRoundTrip(u: ParsedUrl)
    requires WellFormed(u)
    ensures ParseUrl(PrintUrl(u)) == Some(u) <==> Printable(u)
  {
    hide ParseAuthority, ParseUrl;
    AuthorityRoundTrip(u);
    NoSlashInPrinted(u);
    ParseUrlOf(u.tls, PrintAuthority(u), u.path);
  }

  lemma SchemeIsRead(tls: bool, rest: string)
    ensures var url := Scheme(tls) + rest;
            && (StartsWith(url, "http://") || StartsWith(url, "https://"))
            && StartsWith(url, "http://") == !tls
            && (if tls then url[8..] else url[7..]) == rest
  {
    var url := Scheme(tls) + rest;
    assert url[..|Scheme(tls)|] == Scheme(tls);
    if tls {
      assert url[4] == 's';
    }
  }
}
