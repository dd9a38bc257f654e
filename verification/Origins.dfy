/** The web origins file of internal/projectconfig: its parser, its printer, and when one undoes
    the other. Hosts are ASCII, as the hostname check of internal/webgateway insists. */
module Origins {
  import opened Faults
  import opened Texts
  import opened ByteOrder
  import KeyedSort

  datatype Rule = Rule(host: string, port: nat, category: string, allowHttp: bool, allowConnect: bool, includeSubdomains: bool)

  const MAX_BYTES := 65536
  const MAX_RULES := 1024

  // ----- Hostnames -----

  function WithoutFinalDot(s: string): string {
    if s != [] && s[|s| - 1] == '.' then s[..|s| - 1] else s
  }

  predicate LabelChar(c: char) {
    'a' <= c <= 'z' || '0' <= c <= '9' || c == '-'
  }

  predicate GoodLabel(name: string) {
    && 1 <= |name| <= 63 && name[0] != '-' && name[|name| - 1] != '-'
    && forall k :: 0 <= k < |name| ==> LabelChar(name[k])
  }

  predicate Digits(s: string) {
    forall k :: 0 <= k < |s| ==> '0' <= s[k] <= '9'
  }

  /** One decimal octet without a leading zero. */
  predicate Octet(s: string) {
    && 1 <= |s| <= 3 && Digits(s) && (|s| > 1 ==> s[0] != '0')
    && (|s| == 3 ==> s[0] < '2' || (s[0] == '2' && (s[1] < '5' || (s[1] == '5' && s[2] <= '5'))))
  }

  predicate AddressLiteral(s: string) {
    var parts := Split(s, '.');
    |parts| == 4 && forall k :: 0 <= k < 4 ==> Octet(parts[k])
  }

  predicate AllGood(labels: seq<string>) {
    forall k :: 0 <= k < |labels| ==> GoodLabel(labels[k])
  }

  /** normalizeHostname: lower case without a final dot, if what remains is a hostname. */
  function NormalizeHostname(s: string): Option<string> {
    var value := Lower(WithoutFinalDot(s));
    if 1 <= |value| <= 253 && !AddressLiteral(value) && AllGood(Split(value, '.')) then Some(value) else None
  }

  // ----- One origin -----

  function NewRule(host: string, http: bool, includeSubdomains: bool): Rule {
    Rule(host, if http then 80 else 443, "user", http, !http, includeSubdomains)
  }

  datatype Url = Url(scheme: string, authority: string)

  /** A scheme in lower case, "://", and an authority; after it at most one slash, no query, not
      even an empty one, and no fragment but an empty one. */
  function SplitUrl(raw: string): Option<Url> {
    var hash := IndexOf(raw, '#');
    if hash < |raw| && hash + 1 != |raw| then None else SplitHierarchy(raw[..hash])
  }

  function SplitHierarchy(u: string): Option<Url> {
    var colon := IndexOf(u, ':');
    if '?' in u || |u| < colon + 3 || u[colon + 1..colon + 3] != "//" then None
    else SplitRest(Lower(u[..colon]), u[colon + 3..])
  }

  function SplitRest(scheme: string, rest: string): Option<Url> {
    var slash := IndexOf(rest, '/');
    if slash < |rest| && slash + 1 != |rest| then None else Some(Url(scheme, rest[..slash]))
  }

  datatype Authority = Authority(host: string, port: Option<string>)

  /** No user information; the host in lower case, and the port if there is a colon. */
  function SplitAuthority(authority: string): Option<Authority> {
    var colon := IndexOf(authority, ':');
    if '@' in authority then None
    else Some(Authority(Lower(authority[..colon]), if colon < |authority| then Some(authority[colon + 1..]) else None))
  }

  /** Only hostnames, only http and https, and only their own ports. */
  function RuleFor(scheme: string, a: Authority, includeSubdomains: bool): Option<Rule> {
    if NormalizeHostname(a.host).None? then None
    else if scheme == "http" && (a.port.None? || a.port == Some("80")) then Some(NewRule(a.host, true, includeSubdomains))
    else if scheme == "https" && (a.port.None? || a.port == Some("443")) then Some(NewRule(a.host, false, includeSubdomains))
    else None
  }

  function ParseOrigin(raw: string, includeSubdomains: bool): Option<Rule> {
    match SplitUrl(raw)
    case None => None
    case Some(url) =>
      match SplitAuthority(url.authority)
      case None => None
      case Some(a) => RuleFor(url.scheme, a, includeSubdomains)
  }

  /** A rule of the shape ParseOrigin gives. */
  predicate UserRule(r: Rule) {
    && NormalizeHostname(r.host).Some? && Lower(r.host) == r.host
    && r == NewRule(r.host, r.allowHttp, r.includeSubdomains)
  }

  function Scheme(r: Rule): string {
    if r.allowHttp then "http" else "https"
  }

  function Origin(r: Rule): string {
    Scheme(r) + "://" + r.host
  }

  predicate HostChar(c: char) {
    LabelChar(c) || c == '.'
  }

  /** A good host is made of label characters and dots only. */
  lemma HostChars(host: string)
    requires NormalizeHostname(host).Some? && Lower(host) == host
    ensures Plain(host)
  {
    var shortened := WithoutFinalDot(host);
    var value := Lower(shortened);
    LabelsChars(value);
    forall k | 0 <= k < |host|
      ensures LowerChar(host[k]) == host[k]
    {
      assert Lower(host)[k] == host[k];
    }
    forall k | 0 <= k < |shortened|
      ensures HostChar(LowerChar(shortened[k]))
    {
      assert HostChar(value[k]);
    }
    DotRestored(host);
  }

  lemma DotRestored(host: string)
    requires WithoutFinalDot(host) != []
    requires forall k :: 0 <= k < |host| ==> LowerChar(host[k]) == host[k]
    requires forall k :: 0 <= k < |WithoutFinalDot(host)| ==> HostChar(LowerChar(WithoutFinalDot(host)[k]))
    ensures Plain(host)
  {
    forall k | 0 <= k < |host|
      ensures HostChar(host[k])
    {
      if k < |WithoutFinalDot(host)| {
        assert WithoutFinalDot(host)[k] == host[k];
      }
    }
  }

  predicate LabelOnly(s: string) {
    forall k :: 0 <= k < |s| ==> LabelChar(s[k])
  }

  lemma {:induction false} LabelsChars(value: string)
    requires forall k :: 0 <= k < |Split(value, '.')| ==> LabelOnly(Split(value, '.')[k])
    ensures forall k :: 0 <= k < |value| ==> HostChar(value[k])
  {
    if value != [] {
      var parts, rest := Split(value, '.'), Split(value[1..], '.');
      forall k | 0 <= k < |rest|
        ensures LabelOnly(rest[k])
      {
        if value[0] == '.' {
          assert rest[k] == parts[k + 1] && LabelOnly(parts[k + 1]);
        } else {
          assert LabelOnly(parts[k]);
          LabelTail(parts[0], rest[0], value[0]);
        }
      }
      LabelsChars(value[1..]);
      assert value[0] == '.' || (LabelOnly(parts[0]) && parts[0][0] == value[0]);
      assert forall k :: 1 <= k < |value| ==> value[k] == value[1..][k - 1];
    }
  }

  lemma LabelTail(part: string, tail: string, c: char)
    requires part == [c] + tail && LabelOnly(part)
    ensures LabelOnly(tail)
  {
    assert forall k :: 0 <= k < |tail| ==> tail[k] == part[k + 1];
  }

  predicate Plain(host: string) {
    host != [] && forall k :: 0 <= k < |host| ==> HostChar(host[k])
  }

  lemma NoMarks(scheme: string, host: string)
    requires scheme in {"http", "https"} && Plain(host)
    ensures '#' !in scheme + "://" + host && '?' !in scheme + "://" + host && ':' !in scheme
    ensures '/' !in host && '@' !in host && ':' !in host
  {
    assert forall c :: c in host ==> HostChar(c);
    assert forall c :: c in scheme + "://" + host ==> c in scheme || c in "://" || c in host;
  }

  lemma UrlParts(scheme: string, host: string)
    ensures var raw := scheme + "://" + host;
      raw[..|scheme|] == scheme && raw[|scheme| + 1..|scheme| + 3] == "//" && raw[|scheme| + 3..] == host
    ensures scheme + "://" + host == scheme + [':'] + ("//" + host)
  {
  }

  lemma UrlSplits(scheme: string, host: string)
    requires scheme in {"http", "https"} && Plain(host)
    ensures SplitUrl(scheme + "://" + host) == Some(Url(scheme, host))
  {
    var raw := scheme + "://" + host;
    NoMarks(scheme, host);
    UrlParts(scheme, host);
    IndexAfter(scheme, ':', "//" + host);
    assert raw[..|raw|] == raw && host[..|host|] == host;
    SchemeIsLower(scheme);
  }

  lemma SchemeIsLower(scheme: string)
    requires scheme in {"http", "https"}
    ensures Lower(scheme) == scheme
  {
  }

  lemma AuthoritySplits(host: string)
    requires Plain(host) && Lower(host) == host
    ensures SplitAuthority(host) == Some(Authority(host, None))
  {
    assert '@' !in host && ':' !in host && host[..|host|] == host;
  }

  /** Printing a user rule and parsing it gives the rule back. */
  lemma OriginParses(r: Rule)
    requires UserRule(r)
    ensures ParseOrigin(Origin(r), r.includeSubdomains) == Some(r)
  {
    HostChars(r.host);
    UrlSplits(Scheme(r), r.host);
    AuthoritySplits(r.host);
    RuleForPlain(r.host, r.allowHttp, r.includeSubdomains);
  }

  lemma RuleForPlain(host: string, http: bool, includeSubdomains: bool)
    requires NormalizeHostname(host).Some?
    ensures RuleFor(if http then "http" else "https", Authority(host, None), includeSubdomains) == Some(NewRule(host, http, includeSubdomains))
  {
  }

  /** The rules ParseOrigin can produce are exactly the user rules. */
  lemma ProducedExactly(r: Rule)
    ensures UserRule(r) <==> exists raw: string, sub: bool :: ParseOrigin(raw, sub) == Some(r)
  {
    if UserRule(r) {
      OriginParses(r);
    }
    forall raw: string, sub: bool | ParseOrigin(raw, sub) == Some(r)
      ensures UserRule(r)
    {
      ParsedIsUser(raw, sub);
    }
  }

  lemma ParsedIsUser(raw: string, sub: bool)
    requires ParseOrigin(raw, sub).Some?
    ensures UserRule(ParseOrigin(raw, sub).value)
  {
    AuthorityIsLower(SplitUrl(raw).value.authority);
  }

  lemma AuthorityIsLower(authority: string)
    requires SplitAuthority(authority).Some?
    ensures var host := SplitAuthority(authority).value.host; Lower(host) == host
  {
    LowerTwice(authority[..IndexOf(authority, ':')]);
  }

  /** What one has to write to get a rule, said without the parser: a scheme and a host in any
      case, at most the scheme's own port, at most one slash, at most an empty fragment. */
  ghost predicate Writes(raw: string, r: Rule, scheme: string, host: string, port: string, slash: string, hash: string) {
    && raw == Before(scheme, host, port, slash) + hash
    && Lower(scheme) == Scheme(r) && Lower(host) == r.host
    && port in {"", if r.allowHttp then ":80" else ":443"} && slash in {"", "/"} && hash in {"", "#"}
  }

  function Before(scheme: string, host: string, port: string, slash: string): string {
    scheme + "://" + (host + port + slash)
  }

  /** Everything so written is accepted. */
  lemma WrittenParses(raw: string, r: Rule, scheme: string, host: string, port: string, slash: string, hash: string)
    requires UserRule(r) && Writes(raw, r, scheme, host, port, slash, hash)
    ensures ParseOrigin(raw, r.includeSubdomains) == Some(r)
  {
    HostChars(r.host);
    var given := if port == "" then None else Some(port[1..]);
    WrittenParts(raw, scheme, host, port, slash, hash, r.includeSubdomains);
    assert port == "" || port[1..] == if r.allowHttp then "80" else "443";
    RuleForWritten(r, given);
  }

  lemma RuleForWritten(r: Rule, given: Option<string>)
    requires UserRule(r) && (given.None? || given == Some(if r.allowHttp then "80" else "443"))
    ensures RuleFor(Scheme(r), Authority(r.host, given), r.includeSubdomains) == Some(r)
  {
  }

  lemma WrittenParts(raw: string, scheme: string, host: string, port: string, slash: string, hash: string, sub: bool)
    requires raw == Before(scheme, host, port, slash) + hash && Lower(scheme) in {"http", "https"} && Plain(Lower(host))
    requires port in {"", ":80", ":443"} && slash in {"", "/"} && hash in {"", "#"}
    ensures ParseOrigin(raw, sub) ==
      RuleFor(Lower(scheme), Authority(Lower(host), if port == "" then None else Some(port[1..])), sub)
  {
    PlainAnyCase(host);
    SchemeAnyCase(scheme);
    WrittenUrl(scheme, host, port, slash, hash);
    WrittenAuthority(host, port);
  }

  /** No character of it marks a fragment, a query, a path, a port or a user. */
  predicate Unmarked(s: string) {
    forall c :: c in s ==> c !in "#?/:@"
  }

  lemma PlainAnyCase(host: string)
    requires Plain(Lower(host))
    ensures Unmarked(host) && host != []
  {
    forall c | c in host
      ensures c !in "#?/:@"
    {
      var k :| 0 <= k < |host| && host[k] == c;
      assert HostChar(Lower(host)[k]) && Lower(host)[k] == LowerChar(c);
    }
  }

  lemma SchemeAnyCase(scheme: string)
    requires Lower(scheme) in {"http", "https"}
    ensures Unmarked(scheme)
  {
    forall c | c in scheme
      ensures c !in "#?/:@"
    {
      var k :| 0 <= k < |scheme| && scheme[k] == c;
      assert Lower(scheme)[k] == LowerChar(c) && Lower(scheme)[k] in "https";
    }
  }

  lemma FewMarks(scheme: string, host: string, port: string, slash: string)
    requires Unmarked(scheme) && Unmarked(host) && port in {"", ":80", ":443"} && slash in {"", "/"}
    ensures var u := Before(scheme, host, port, slash); '#' !in u && '?' !in u && '/' !in host + port
  {
  }

  lemma WrittenUrl(scheme: string, host: string, port: string, slash: string, hash: string)
    requires Unmarked(scheme) && Unmarked(host) && port in {"", ":80", ":443"} && slash in {"", "/"} && hash in {"", "#"}
    ensures SplitUrl(Before(scheme, host, port, slash) + hash) == Some(Url(Lower(scheme), host + port))
  {
    var u := Before(scheme, host, port, slash);
    FewMarks(scheme, host, port, slash);
    if hash == "#" {
      IndexAfter(u, '#', "");
      assert u + ['#'] + "" == u + hash;
    } else {
      assert u + hash == u;
    }
    assert (u + hash)[..|u|] == u;
    WrittenHierarchy(scheme, host, port, slash);
  }

  lemma WrittenHierarchy(scheme: string, host: string, port: string, slash: string)
    requires Unmarked(scheme) && Unmarked(host) && port in {"", ":80", ":443"} && slash in {"", "/"}
    ensures SplitHierarchy(Before(scheme, host, port, slash)) == Some(Url(Lower(scheme), host + port))
  {
    var rest := host + port + slash;
    SchemeFirst(scheme, rest);
    FewMarks(scheme, host, port, slash);
    SlashLast(host + port, slash);
  }

  lemma SchemeFirst(scheme: string, rest: string)
    requires Unmarked(scheme)
    ensures var u := scheme + "://" + rest;
      && IndexOf(u, ':') == |scheme| && u[..|scheme|] == scheme
      && u[|scheme| + 1..|scheme| + 3] == "//" && u[|scheme| + 3..] == rest
  {
    UrlParts(scheme, rest);
    assert ':' !in scheme;
    IndexAfter(scheme, ':', "//" + rest);
  }

  lemma SlashLast(authority: string, slash: string)
    requires '/' !in authority && slash in {"", "/"}
    ensures var rest := authority + slash;
      IndexOf(rest, '/') == |authority| && rest[..|authority|] == authority && |rest| == |authority| + |slash|
  {
    if slash == "/" {
      IndexAfter(authority, '/', "");
      assert authority + ['/'] + "" == authority + slash;
    } else {
      assert authority + slash == authority;
    }
  }

  lemma WrittenAuthority(host: string, port: string)
    requires Unmarked(host) && port in {"", ":80", ":443"}
    ensures SplitAuthority(host + port) == Some(Authority(Lower(host), if port == "" then None else Some(port[1..])))
  {
    assert '@' !in host + port;
    if port == "" {
      assert host + port == host && host[..|host|] == host;
    } else {
      IndexAfter(host, ':', port[1..]);
      assert host + [':'] + port[1..] == host + port;
      assert (host + port)[..|host|] == host && (host + port)[|host| + 1..] == port[1..];
    }
  }

  lemma HashBack(raw: string)
    requires SplitUrl(raw).Some?
    ensures var h := IndexOf(raw, '#');
      raw == raw[..h] + raw[h..] && raw[h..] in {"", "#"} && SplitUrl(raw) == SplitHierarchy(raw[..h])
  {
    assert IndexOf(raw, '#') < |raw| ==> raw[IndexOf(raw, '#')..] == "#";
  }

  lemma HierarchyBack(u: string)
    requires SplitHierarchy(u).Some?
    ensures var colon := IndexOf(u, ':');
      && colon + 3 <= |u| && u == u[..colon] + "://" + u[colon + 3..]
      && SplitHierarchy(u) == SplitRest(Lower(u[..colon]), u[colon + 3..])
  {
    SchemeBack(u, IndexOf(u, ':'));
  }

  lemma SchemeBack(u: string, colon: nat)
    requires colon + 3 <= |u| && u[colon] == ':' && u[colon + 1..colon + 3] == "//"
    ensures u == u[..colon] + "://" + u[colon + 3..]
  {
    assert u[colon..colon + 3] == [u[colon]] + u[colon + 1..colon + 3];
    assert u == u[..colon] + u[colon..colon + 3] + u[colon + 3..];
  }

  lemma RestBack(scheme: string, rest: string)
    requires SplitRest(scheme, rest).Some?
    ensures var s := IndexOf(rest, '/');
      rest == rest[..s] + rest[s..] && rest[s..] in {"", "/"} && SplitRest(scheme, rest).value == Url(scheme, rest[..s])
  {
    assert IndexOf(rest, '/') < |rest| ==> rest[IndexOf(rest, '/')..] == "/";
  }

  lemma PortBack(authority: string, p: nat)
    requires p <= |authority| && (p < |authority| ==> authority[p] == ':')
    ensures authority == authority[..p] + authority[p..]
    ensures p == |authority| ==> authority[p..] == ""
    ensures p < |authority| ==> authority[p..] == ":" + authority[p + 1..]
  {
  }

  lemma AuthorityBack(authority: string)
    requires SplitAuthority(authority).Some?
    ensures var p := IndexOf(authority, ':');
      && authority == authority[..p] + authority[p..]
      && SplitAuthority(authority).value.host == Lower(authority[..p])
      && (authority[p..] == "" ==> SplitAuthority(authority).value.port == None)
      && (authority[p..] != "" ==> p < |authority| && SplitAuthority(authority).value.port == Some(authority[p + 1..]))
      && (authority[p..] != "" ==> authority[p..] == ":" + authority[p + 1..])
  {
    PortBack(authority, IndexOf(authority, ':'));
  }

  lemma RuleBack(scheme: string, a: Authority, sub: bool)
    requires RuleFor(scheme, a, sub).Some?
    ensures var r := RuleFor(scheme, a, sub).value;
      && Scheme(r) == scheme && r.host == a.host && (a.port.None? || a.port == Some(if r.allowHttp then "80" else "443"))
  {
  }

  /** And nothing else is. */
  lemma ParsedIsWritten(raw: string, sub: bool) returns (scheme: string, host: string, port: string, slash: string, hash: string)
    requires ParseOrigin(raw, sub).Some?
    ensures Writes(raw, ParseOrigin(raw, sub).value, scheme, host, port, slash, hash)
  {
    var url := SplitUrl(raw).value;
    var a := SplitAuthority(url.authority).value;
    HashBack(raw);
    var u := raw[..IndexOf(raw, '#')];
    hash := raw[IndexOf(raw, '#')..];
    HierarchyBack(u);
    RestBack(Lower(u[..IndexOf(u, ':')]), u[IndexOf(u, ':') + 3..]);
    var rest := u[IndexOf(u, ':') + 3..];
    scheme, slash := u[..IndexOf(u, ':')], rest[IndexOf(rest, '/')..];
    AuthorityBack(url.authority);
    host, port := url.authority[..IndexOf(url.authority, ':')], url.authority[IndexOf(url.authority, ':')..];
    RuleBack(url.scheme, a, sub);
    Reassembled(raw, ParseOrigin(raw, sub).value, url, a, scheme, host, port, slash, hash);
  }

  lemma Reassembled(raw: string, r: Rule, url: Url, a: Authority, scheme: string, host: string, port: string, slash: string, hash: string)
    requires raw == scheme + "://" + (url.authority + slash) + hash && url.authority == host + port
    requires slash in {"", "/"} && hash in {"", "#"} && url.scheme == Lower(scheme) && a.host == Lower(host)
    requires if port == "" then a.port.None? else a.port.Some? && port == ":" + a.port.value
    requires Scheme(r) == url.scheme && r.host == a.host && (a.port.None? || a.port == Some(if r.allowHttp then "80" else "443"))
    ensures Writes(raw, r, scheme, host, port, slash, hash)
  {
    assert ":" + "80" == ":80" && ":" + "443" == ":443";
  }

  // ----- Lines -----

  predicate IsSpace(c: char) {
    c == ' ' || c == '\t' || c == '\n' || c == '\r' || c == 11 as char || c == 12 as char
  }

  /** The length of the word at the front of s. */
  function WordLength(s: string): (n: nat)
    ensures n <= |s| && forall k :: 0 <= k < n ==> !IsSpace(s[k])
    ensures n < |s| ==> IsSpace(s[n])
  {
    if s == [] || IsSpace(s[0]) then 0 else 1 + WordLength(s[1..])
  }

  function Fields(s: string): (words: seq<string>)
    ensures forall k :: 0 <= k < |words| ==> words[k] != []
  {
    if s == [] then []
    else if IsSpace(s[0]) then Fields(s[1..])
    else [s[..WordLength(s)]] + Fields(s[WordLength(s)..])
  }

  datatype LineResult = Blank | Bad | Parsed(rule: Rule)

  const INCLUDE := "include-subdomains"

  function ParseLine(line: string): LineResult {
    var words := Fields(line);
    if |words| == 0 || words[0][0] == '#' then Blank
    else if |words| > 2 || (|words| == 2 && words[1] != INCLUDE) then Bad
    else match ParseOrigin(words[0], |words| == 2) case None => Bad case Some(r) => Parsed(r)
  }

  function ParseEach(lines: seq<string>): (results: seq<LineResult>)
    ensures |results| == |lines|
  {
    if lines == [] then [] else [ParseLine(lines[0])] + ParseEach(lines[1..])
  }

  lemma {:induction false} EachAt(lines: seq<string>, k: nat)
    requires k < |lines|
    ensures ParseEach(lines)[k] == ParseLine(lines[k])
  {
    if k > 0 {
      EachAt(lines[1..], k - 1);
    }
  }

  /** The rules among the results, in order, if no line is bad. */
  function Collect(results: seq<LineResult>): Option<seq<Rule>> {
    if results == [] then Some([])
    else
      var rest := Collect(results[1..]);
      match results[0]
      case Bad => None
      case Blank => rest
      case Parsed(r) => if rest.None? then None else Some([r] + rest.value)
  }

  function ParseLines(lines: seq<string>): Option<seq<Rule>> {
    Collect(ParseEach(lines))
  }

  // ----- The file -----

  /** The text two rules must not share: the host without its final dot, and all the rest. */
  function DuplicateKey(r: Rule): Rule {
    r.(host := Lower(WithoutFinalDot(r.host)))
  }

  predicate NoDuplicates(rules: seq<Rule>) {
    forall i, j :: 0 <= i < j < |rules| ==> DuplicateKey(rules[i]) != DuplicateKey(rules[j])
  }

  /** Two rules for the same traffic: they differ at most in a final dot of the host. */
  predicate Twins(r: Rule, q: Rule) {
    && (r.host == q.host || r.host == q.host + "." || q.host == r.host + ".")
    && r.port == q.port && r.category == q.category && r.allowHttp == q.allowHttp
    && r.allowConnect == q.allowConnect && r.includeSubdomains == q.includeSubdomains
  }

  ghost predicate NoTwins(rules: seq<Rule>) {
    forall i, j :: 0 <= i < j < |rules| ==> !Twins(rules[i], rules[j])
  }

  /** User rules share the text exactly if they are twins. */
  lemma DuplicatesAreTwins(r: Rule, q: Rule)
    requires UserRule(r) && UserRule(q)
    ensures DuplicateKey(r) == DuplicateKey(q) <==> Twins(r, q)
  {
    NoSecondDot(r.host);
    NoSecondDot(q.host);
    SameStem(r.host, q.host);
  }

  lemma SameStem(x: string, y: string)
    requires var h := WithoutFinalDot(x); h != [] && h[|h| - 1] != '.'
    requires var h := WithoutFinalDot(y); h != [] && h[|h| - 1] != '.'
    ensures WithoutFinalDot(x) == WithoutFinalDot(y) <==> x == y || x == y + "." || y == x + "."
  {
    DotBack(x);
    DotBack(y);
  }

  lemma DotBack(x: string)
    requires x != []
    ensures WithoutFinalDot(x + ".") == x
    ensures x == WithoutFinalDot(x) || x == WithoutFinalDot(x) + "."
  {
    assert (x + ".")[..|x|] == x;
    assert x == x[..|x| - 1] + [x[|x| - 1]];
  }

  lemma LowerPrefix(s: string, t: string)
    requires Lower(s) == s && t <= s
    ensures Lower(t) == t
  {
    forall k | 0 <= k < |t|
      ensures Lower(t)[k] == t[k]
    {
      assert Lower(s)[k] == s[k];
    }
  }

  /** Without its final dot a hostname does not end in a dot. */
  lemma NoSecondDot(host: string)
    requires NormalizeHostname(host).Some? && Lower(host) == host
    ensures var h := WithoutFinalDot(host); h != [] && h[|h| - 1] != '.' && Lower(h) == h
  {
    var h := WithoutFinalDot(host);
    LowerPrefix(host, h);
    if h[|h| - 1] == '.' {
      EndsInDot(h);
    }
  }

  lemma EndsInDot(h: string)
    requires h != [] && h[|h| - 1] == '.'
    ensures !AllGood(Split(h, '.'))
  {
    assert h == h[..|h| - 1] + ['.'];
    LastPartEmpty(h[..|h| - 1], '.');
    assert !GoodLabel(Split(h, '.')[|Split(h, '.')| - 1]);
  }

  lemma {:induction false} LastPartEmpty(s: string, separator: char)
    ensures var parts := Split(s + [separator], separator); parts[|parts| - 1] == []
  {
    if s != [] {
      LastPartEmpty(s[1..], separator);
      assert (s + [separator])[1..] == s[1..] + [separator];
      var rest := Split(s[1..] + [separator], separator);
      PartsOfSeparated(s[1..], separator);
      assert |rest| > 1;
    }
  }

  lemma {:induction false} PartsOfSeparated(s: string, separator: char)
    ensures |Split(s + [separator], separator)| > 1
  {
    if s != [] {
      PartsOfSeparated(s[1..], separator);
      assert (s + [separator])[1..] == s[1..] + [separator];
    }
  }

  lemma TwinsOfUserRules(rules: seq<Rule>)
    requires UserRules(rules)
    ensures NoDuplicates(rules) <==> NoTwins(rules)
  {
    forall i, j | 0 <= i < j < |rules|
      ensures DuplicateKey(rules[i]) == DuplicateKey(rules[j]) <==> Twins(rules[i], rules[j])
    {
      DuplicatesAreTwins(rules[i], rules[j]);
    }
  }

  /** The parser only collects user rules. */
  lemma CollectedAreUser(lines: seq<string>)
    requires ParseLines(lines).Some?
    ensures UserRules(ParseLines(lines).value)
  {
    forall k | 0 <= k < |lines| && ParseEach(lines)[k].Parsed?
      ensures UserRule(ParseEach(lines)[k].rule)
    {
      EachAt(lines, k);
      LineIsUser(lines[k]);
    }
    CollectUser(ParseEach(lines));
  }

  lemma LineIsUser(line: string)
    requires ParseLine(line).Parsed?
    ensures UserRule(ParseLine(line).rule)
  {
    var words := Fields(line);
    ParsedIsUser(words[0], |words| == 2);
  }

  lemma {:induction false} CollectUser(results: seq<LineResult>)
    requires Collect(results).Some? && forall k :: 0 <= k < |results| && results[k].Parsed? ==> UserRule(results[k].rule)
    ensures UserRules(Collect(results).value)
  {
    if results != [] {
      CollectUser(results[1..]);
    }
  }

  function Decimal(n: nat): string {
    if n < 10 then [(n + 48) as char] else Decimal(n / 10) + [(n % 10 + 48) as char]
  }

  function Flag(b: bool): string {
    if b then "true" else "false"
  }

  const KEY_HEAD := "{\"host\":\""

  const KEY_PORT := ",\"port\":"

  function KeyRest(r: Rule): string {
    KEY_PORT + (Decimal(r.port) + KeyTail(r))
  }

  function KeyTail(r: Rule): string {
    KeyMiddle(r) + (Flag(r.includeSubdomains) + "}")
  }

  function KeyMiddle(r: Rule): string {
    ",\"category\":\"" + r.category + "\",\"allow_http\":" + Flag(r.allowHttp)
    + ",\"allow_connect\":" + Flag(r.allowConnect) + ",\"include_subdomains\":"
  }

  /** The JSON text rules are sorted by. */
  function Key(r: Rule): string {
    KEY_HEAD + (r.host + ['"'] + KeyRest(r))
  }

  lemma DecimalPorts()
    ensures Decimal(80) == "80" && Decimal(443) == "443"
  {
    assert Decimal(8) == "8" && Decimal(4) == "4";
    assert Decimal(44) == "44";
  }

  /** Different user rules have different keys. */
  lemma KeyTells(r: Rule, q: Rule)
    requires UserRule(r) && UserRule(q) && Key(r) == Key(q)
    ensures r == q
  {
    HostChars(r.host);
    HostChars(q.host);
    assert r.host + ['"'] + KeyRest(r) == Key(r)[|KEY_HEAD|..] == Key(q)[|KEY_HEAD|..] == q.host + ['"'] + KeyRest(q);
    Quoted(r.host, KeyRest(r));
    Quoted(q.host, KeyRest(q));
    RestTells(r, q);
  }

  /** The first quote ends the host. */
  lemma Quoted(host: string, rest: string)
    requires Plain(host)
    ensures var s := host + ['"'] + rest; var i := IndexOf(s, '"'); i < |s| && s[..i] == host && s[i + 1..] == rest
  {
    assert forall c :: c in host ==> HostChar(c);
    IndexAfter(host, '"', rest);
  }

  lemma RestTells(r: Rule, q: Rule)
    requires r == NewRule(r.host, r.allowHttp, r.includeSubdomains) && q == NewRule(q.host, q.allowHttp, q.includeSubdomains)
    requires r.host == q.host && KeyRest(r) == KeyRest(q)
    ensures r == q
  {
    DecimalPorts();
    assert KeyRest(r)[8] == (if r.allowHttp then '8' else '4');
    assert KeyRest(q)[8] == (if q.allowHttp then '8' else '4');
    assert |KeyRest(r)| == |KeyRest(r.(includeSubdomains := true))| + if r.includeSubdomains then 0 else 1;
  }

  // ----- The canonical order, said without the text -----

  /** By host; then https before http; then the host alone before the host with its subdomains. */
  predicate Earlier(r: Rule, q: Rule) {
    || LexLess(r.host, q.host)
    || (r.host == q.host && !r.allowHttp && q.allowHttp)
    || (r.host == q.host && r.allowHttp == q.allowHttp && !r.includeSubdomains && q.includeSubdomains)
  }

  lemma KeyOrder(r: Rule, q: Rule)
    requires UserRule(r) && UserRule(q)
    ensures LexLess(Key(r), Key(q)) <==> Earlier(r, q)
  {
    HostChars(r.host);
    HostChars(q.host);
    LexPrefix(KEY_HEAD, r.host + ['"'] + KeyRest(r), q.host + ['"'] + KeyRest(q));
    QuotedOrder(r.host, q.host, KeyRest(r), KeyRest(q));
    RestOrder(r, q);
  }

  /** The quote is smaller than every character of a host. */
  lemma {:induction false} QuotedOrder(x: string, y: string, s: string, t: string)
    requires (forall k :: 0 <= k < |x| ==> HostChar(x[k])) && forall k :: 0 <= k < |y| ==> HostChar(y[k])
    ensures LexLess(x + ['"'] + s, y + ['"'] + t) <==> LexLess(x, y) || (x == y && LexLess(s, t))
  {
    assert x == [] ==> (x + ['"'] + s)[0] == '"' && (x + ['"'] + s)[1..] == s;
    assert y == [] ==> (y + ['"'] + t)[0] == '"' && (y + ['"'] + t)[1..] == t;
    if x != [] && y != [] {
      assert (x + ['"'] + s)[1..] == x[1..] + ['"'] + s && (y + ['"'] + t)[1..] == y[1..] + ['"'] + t;
      QuotedOrder(x[1..], y[1..], s, t);
      assert x == [x[0]] + x[1..] && y == [y[0]] + y[1..];
    }
  }

  lemma RestOrder(r: Rule, q: Rule)
    requires r == NewRule(r.host, r.allowHttp, r.includeSubdomains) && q == NewRule(q.host, q.allowHttp, q.includeSubdomains)
    ensures LexLess(KeyRest(r), KeyRest(q)) <==>
      (!r.allowHttp && q.allowHttp) || (r.allowHttp == q.allowHttp && !r.includeSubdomains && q.includeSubdomains)
  {
    DecimalPorts();
    LexPrefix(KEY_PORT, Decimal(r.port) + KeyTail(r), Decimal(q.port) + KeyTail(q));
    if r.allowHttp == q.allowHttp {
      var a, b := Flag(r.includeSubdomains) + "}", Flag(q.includeSubdomains) + "}";
      assert KeyMiddle(r) == KeyMiddle(q);
      LexPrefix(Decimal(r.port), KeyTail(r), KeyTail(q));
      LexPrefix(KeyMiddle(r), a, b);
      LexTotal(a, a);
    }
  }

  // ----- What a hostname is -----

  /** Up to 253 characters: labels between single dots, and not four decimal octets. */
  ghost predicate Hostname(v: string) {
    && 1 <= |v| <= 253
    && (exists labels: seq<string> :: Labels(labels) && v == Join(labels, '.'))
    && !exists a: nat, b: nat, c: nat, d: nat :: Address(v, a, b, c, d)
  }

  predicate Labels(labels: seq<string>) {
    labels != [] && forall name :: name in labels ==>
      && 1 <= |name| <= 63 && name[0] != '-' && name[|name| - 1] != '-'
      && forall c :: c in name ==> 'a' <= c <= 'z' || '0' <= c <= '9' || c == '-'
  }

  predicate Address(v: string, a: nat, b: nat, c: nat, d: nat) {
    && a < 256 && b < 256 && c < 256 && d < 256
    && v == Join([Decimal(a), Decimal(b), Decimal(c), Decimal(d)], '.')
  }

  /** The value of decimal digits. */
  function ValueOf(s: string): int {
    if s == [] then 0 else 10 * ValueOf(s[..|s| - 1]) + (s[|s| - 1] as int - '0' as int)
  }

  /** Decimal writes a number in digits of that value, without a leading zero. */
  lemma {:induction false} DecimalMeaning(n: nat)
    ensures var s := Decimal(n); s != [] && Digits(s) && ValueOf(s) == n && (n > 0 ==> s[0] != '0')
    ensures n < 10 ==> |Decimal(n)| == 1
    ensures 10 <= n < 100 ==> |Decimal(n)| == 2
    ensures 100 <= n < 1000 ==> |Decimal(n)| == 3
  {
    if n >= 10 {
      DecimalMeaning(n / 10);
      assert Decimal(n)[..|Decimal(n)| - 1] == Decimal(n / 10);
    } else {
      assert Decimal(n)[..0] == [];
    }
  }

  /** An octet is the decimal text of a number below 256. */
  lemma OctetMeaning(s: string)
    ensures Octet(s) <==> exists n: nat :: n < 256 && s == Decimal(n)
  {
    if Octet(s) {
      OctetValue(s);
    }
    forall n: nat | n < 256
      ensures Octet(Decimal(n))
    {
      DecimalOctet(n);
    }
  }

  lemma OctetValue(s: string)
    requires Octet(s)
    ensures 0 <= ValueOf(s) < 256 && s == Decimal(ValueOf(s))
  {
    var k := |s| - 1;
    assert s == s[..k] + [s[k]];
    OneDigit(s[0]);
    if |s| == 3 {
      assert s[..2][..1] == [s[0]] && s[..2] == [s[0], s[1]];
      assert ValueOf(s) == 100 * (s[0] as int - 48) + 10 * (s[1] as int - 48) + (s[2] as int - 48);
    } else if |s| == 2 {
      assert s[..1] == [s[0]];
    }
  }

  lemma OneDigit(c: char)
    ensures ValueOf([c]) == c as int - 48
    ensures '0' <= c <= '9' ==> Decimal(c as int - 48) == [c]
  {
    assert [c][..0] == [];
  }

  lemma DecimalOctet(n: nat)
    requires n < 256
    ensures Octet(Decimal(n))
  {
    DecimalMeaning(n);
    if n >= 100 {
      DecimalMeaning(n / 100);
      assert Decimal(n) == [(n / 100 + 48) as char, (n / 10 % 10 + 48) as char, (n % 10 + 48) as char];
    }
  }

  lemma AddressMeaning(v: string)
    ensures AddressLiteral(v) <==> exists a: nat, b: nat, c: nat, d: nat :: Address(v, a, b, c, d)
  {
    var parts := Split(v, '.');
    if AddressLiteral(v) {
      forall k | 0 <= k < 4
        ensures 0 <= ValueOf(parts[k]) < 256 && parts[k] == Decimal(ValueOf(parts[k]))
      {
        OctetValue(parts[k]);
      }
      JoinedSplit(v, '.');
      assert parts == [parts[0], parts[1], parts[2], parts[3]];
      assert Address(v, ValueOf(parts[0]), ValueOf(parts[1]), ValueOf(parts[2]), ValueOf(parts[3]));
    }
    forall a: nat, b: nat, c: nat, d: nat | Address(v, a, b, c, d)
      ensures AddressLiteral(v)
    {
      DecimalOctet(a);
      DecimalOctet(b);
      DecimalOctet(c);
      DecimalOctet(d);
      SplitJoined([Decimal(a), Decimal(b), Decimal(c), Decimal(d)], '.');
    }
  }

  lemma LabelsMeaning(v: string)
    ensures AllGood(Split(v, '.')) <==> exists labels: seq<string> :: Labels(labels) && v == Join(labels, '.')
  {
    var parts := Split(v, '.');
    if AllGood(parts) {
      JoinedSplit(v, '.');
      GoodLabels(parts);
      assert Labels(parts) && v == Join(parts, '.');
    }
    forall labels | Labels(labels) && v == Join(labels, '.')
      ensures AllGood(parts)
    {
      GoodLabels(labels);
      SplitJoined(labels, '.');
    }
  }

  lemma GoodLabels(names: seq<string>)
    ensures Labels(names) <==> names != [] && AllGood(names)
    ensures Labels(names) ==> forall k :: 0 <= k < |names| ==> '.' !in names[k]
  {
    if Labels(names) {
      forall k | 0 <= k < |names|
        ensures GoodLabel(names[k]) && '.' !in names[k]
      {
        assert names[k] in names;
        assert forall i :: 0 <= i < |names[k]| ==> names[k][i] in names[k];
      }
    }
  }

  /** The hostname a text stands for is that text in lower case, up to a final dot. */
  lemma HostnameMeaning(s: string, v: string)
    ensures NormalizeHostname(s) == Some(v) <==> Hostname(v) && (SameButCase(s, v) || SameButCase(s, v + "."))
  {
    NormalizedIs(s, v);
    if Hostname(v) {
      HostnameIsLower(v);
      LowerStem(s, v);
    }
  }

  lemma NormalizedIs(s: string, v: string)
    ensures NormalizeHostname(s) == Some(v) <==> v == Lower(WithoutFinalDot(s)) && Hostname(v)
  {
    var value := Lower(WithoutFinalDot(s));
    HostnameTells(value);
    if Hostname(value) {
      assert NormalizeHostname(s) == Some(value);
    } else {
      assert NormalizeHostname(s).None?;
    }
  }

  /** Lower case text that does not end in a dot is the other one up to case and a final dot. */
  lemma LowerStem(s: string, v: string)
    requires Lower(v) == v && v != [] && v[|v| - 1] != '.'
    ensures v == Lower(WithoutFinalDot(s)) <==> SameButCase(s, v) || SameButCase(s, v + ".")
  {
    if v == Lower(WithoutFinalDot(s)) {
      var h := WithoutFinalDot(s);
      LowerTells(h, v);
      DotBack(s);
      SameDotted(h, v);
    } else if SameButCase(s, v) {
      SameEnd(s, v);
      LowerTells(s, v);
    } else if SameButCase(s, v + ".") {
      DottedIsLower(s, v);
    }
  }

  lemma SameDotted(h: string, v: string)
    requires SameButCase(h, v)
    ensures SameButCase(h + ".", v + ".")
  {
  }

  lemma SameEnd(s: string, v: string)
    requires SameButCase(s, v) && v != [] && v[|v| - 1] != '.'
    ensures WithoutFinalDot(s) == s
  {
    assert SameLetter(s[|s| - 1], v[|v| - 1]);
  }

  lemma HostnameTells(v: string)
    ensures Hostname(v) <==>
      1 <= |v| <= 253 && !AddressLiteral(v) && AllGood(Split(v, '.'))
  {
    LabelsMeaning(v);
    AddressMeaning(v);
  }

  lemma DottedIsLower(s: string, v: string)
    requires SameButCase(s, v + ".") && Lower(v) == v
    ensures Lower(WithoutFinalDot(s)) == v
  {
    assert SameLetter(s[|v|], (v + ".")[|v|]);
    forall k | 0 <= k < |v|
      ensures SameLetter(s[k], v[k])
    {
      assert SameLetter(s[k], (v + ".")[k]);
    }
    LowerTells(s[..|v|], v);
  }

  lemma HostnameIsLower(v: string)
    requires Hostname(v)
    ensures Lower(v) == v && v[|v| - 1] != '.'
  {
    HostnameTells(v);
    GoodAreLabels(Split(v, '.'));
    LabelsChars(v);
    HostCharsAreLower(v);
    if v[|v| - 1] == '.' {
      EndsInDot(v);
    }
  }

  lemma GoodAreLabels(labels: seq<string>)
    requires AllGood(labels)
    ensures forall k :: 0 <= k < |labels| ==> LabelOnly(labels[k])
  {
  }

  lemma HostCharsAreLower(v: string)
    requires forall k :: 0 <= k < |v| ==> HostChar(v[k])
    ensures Lower(v) == v
  {
    assert forall k :: 0 <= k < |v| ==> Lower(v)[k] == LowerChar(v[k]) == v[k];
  }

  /** The hosts of user rules: hostnames in lower case that may have a final dot. */
  lemma HostMeaning(host: string)
    ensures NormalizeHostname(host).Some? && Lower(host) == host <==> Hostname(host) || exists v :: Hostname(v) && host == v + "."
  {
    if NormalizeHostname(host).Some? && Lower(host) == host {
      NoSecondDot(host);
      DotBack(host);
      NormalizedIs(host, WithoutFinalDot(host));
    }
    if Hostname(host) {
      HostnameIsLower(host);
      NormalizedIs(host, host);
    }
    forall v | Hostname(v) && host == v + "."
      ensures NormalizeHostname(host).Some? && Lower(host) == host
    {
      HostnameIsLower(v);
      DotBack(v);
      NormalizedIs(host, v);
      LowerDotted(v);
    }
  }

  lemma LowerDotted(v: string)
    requires Lower(v) == v
    ensures Lower(v + ".") == v + "."
  {
    forall k | 0 <= k < |v + "."|
      ensures Lower(v + ".")[k] == (v + ".")[k]
    {
      if k < |v| {
        assert LowerChar(v[k]) == Lower(v)[k];
      }
    }
  }

  /** A user rule allows http on its own port or https on its own, for such a host. */
  lemma UserRuleMeaning(r: Rule)
    ensures UserRule(r) <==>
      && (Hostname(r.host) || exists v :: Hostname(v) && r.host == v + ".")
      && r.port == (if r.allowHttp then 80 else 443) && r.category == "user" && r.allowConnect == !r.allowHttp
  {
    HostMeaning(r.host);
  }

  /** r is rules in canonical order. */
  ghost predicate Normalizes(r: seq<Rule>, rules: seq<Rule>) {
    multiset(r) == multiset(rules) && KeyedSort.Ordered(r, Key)
  }

  ghost predicate UserRules(rules: seq<Rule>) {
    forall k :: 0 <= k < |rules| ==> UserRule(rules[k])
  }

  /** User rules have one canonical order. */
  lemma NormalizedUnique(r: seq<Rule>, q: seq<Rule>, rules: seq<Rule>)
    requires UserRules(rules) && Normalizes(r, rules) && Normalizes(q, rules)
    ensures r == q
  {
    UserRulesPermute(rules, r);
    forall i, j | 0 <= i < |r| && 0 <= j < |r| && Key(r[i]) == Key(r[j])
      ensures r[i] == r[j]
    {
      KeyTells(r[i], r[j]);
    }
    KeyedSort.OrderedUnique(r, q, Key);
  }

  lemma UserRulesPermute(rules: seq<Rule>, r: seq<Rule>)
    requires UserRules(rules) && multiset(r) == multiset(rules)
    ensures UserRules(r) && |r| == |rules|
  {
    assert |r| == |multiset(r)| == |multiset(rules)| == |rules|;
    forall k | 0 <= k < |r|
      ensures UserRule(r[k])
    {
      assert r[k] in multiset(rules);
    }
  }

  method NormalizeRules(rules: seq<Rule>) returns (r: seq<Rule>)
    ensures Normalizes(r, rules)
  {
    var copied := new Rule[|rules|](i requires 0 <= i < |rules| => rules[i]);
    assert copied[..] == rules;
    KeyedSort.Sort(copied, Key);
    r := copied[..];
  }

  function Line(r: Rule): string {
    Origin(r) + if r.includeSubdomains then " " + INCLUDE else ""
  }

  function LinesOf(rules: seq<Rule>): (lines: seq<string>)
    ensures |lines| == |rules| && forall k :: 0 <= k < |rules| ==> lines[k] == Line(rules[k])
  {
    if rules == [] then [] else [Line(rules[0])] + LinesOf(rules[1..])
  }

  /** The file: comment lines, one line for each rule, and a final newline. */
  function FileText(comments: seq<string>, rules: seq<Rule>): string {
    Join(comments + LinesOf(rules) + [""], '\n')
  }

  ghost predicate Comments(comments: seq<string>) {
    comments != [] && forall k :: 0 <= k < |comments| ==> comments[k] != [] && comments[k][0] == '#' && '\n' !in comments[k]
  }

  lemma {:induction false} JoinAppended(parts: seq<string>, part: string)
    requires |parts| >= 1
    ensures Join(parts + [""], '\n') == Join(parts, '\n') + "\n"
    ensures Join(parts + [part, ""], '\n') == Join(parts + [""], '\n') + part + "\n"
  {
    if |parts| == 1 {
      assert (parts + [""])[1..] == [""] && (parts + [part, ""])[1..] == [part, ""];
      assert [part, ""][1..] == [""];
      assert Join([part, ""], '\n') == part + "\n" + "";
    } else {
      JoinAppended(parts[1..], part);
      assert (parts + [""])[1..] == parts[1..] + [""] && (parts + [part, ""])[1..] == parts[1..] + [part, ""];
    }
  }

  const COMMENT1 :=
    "# Project-specific" + (" additions only;" + (" built-in presets" + (" are selected in" + " project.json.")))
  const COMMENT2 :=
    "# One HTTP(S)" + (" origin per line. Add" + (" 'include-subdomains'" + (" only when explicitly" + " required.")))

  lemma Broken(a: string, b: string)
    requires '\n' !in a && '\n' !in b
    ensures '\n' !in a + b
  {
  }

  lemma FirstComment()
    ensures COMMENT1 != [] && COMMENT1[0] == '#' && '\n' !in COMMENT1
  {
    Broken(" are selected in", " project.json.");
    Broken(" built-in presets", " are selected in" + " project.json.");
    Broken(" additions only;", " built-in presets" + (" are selected in" + " project.json."));
    Broken("# Project-specific", " additions only;" + (" built-in presets" + (" are selected in" + " project.json.")));
  }

  lemma SecondComment()
    ensures COMMENT2 != [] && COMMENT2[0] == '#' && '\n' !in COMMENT2
  {
    Broken(" only when explicitly", " required.");
    Broken(" 'include-subdomains'", " only when explicitly" + " required.");
    Broken(" origin per line. Add", " 'include-subdomains'" + (" only when explicitly" + " required."));
    Broken("# One HTTP(S)", " origin per line. Add" + (" 'include-subdomains'" + (" only when explicitly" + " required.")));
  }

  lemma TwoComments(a: string, b: string)
    requires a != [] && a[0] == '#' && '\n' !in a && b != [] && b[0] == '#' && '\n' !in b
    ensures Comments([a, b])
  {
  }

  function Header(): seq<string> {
    [COMMENT1, COMMENT2]
  }

  method RenderOrigins(rules: seq<Rule>) returns (output: string)
    ensures exists ordered: seq<Rule> :: Normalizes(ordered, rules) && output == FileText(Header(), ordered)
  {
    ghost var ordered;
    output, ordered := RenderWith(Header(), rules);
  }

  method RenderWith(comments: seq<string>, rules: seq<Rule>) returns (output: string, ghost ordered: seq<Rule>)
    requires comments != []
    ensures Normalizes(ordered, rules) && output == FileText(comments, ordered)
  {
    var sorted := NormalizeRules(rules);
    ordered := sorted;
    output := PrintComments(comments);
    for k := 0 to |sorted|
      invariant output == FileText(comments, sorted[..k])
    {
      RenderStep(comments, sorted, k);
      output := PrintRule(output, sorted[k]);
    }
    assert sorted[..|sorted|] == sorted;
  }

  method PrintComments(comments: seq<string>) returns (output: string)
    requires comments != []
    ensures output == FileText(comments, [])
  {
    output := comments[0] + "\n";
    FirstLine(comments[0]);
    for k := 1 to |comments|
      invariant output == Join(comments[..k] + [""], '\n')
    {
      JoinAppended(comments[..k], comments[k]);
      assert comments[..k + 1] + [""] == comments[..k] + [comments[k], ""];
      output := output + comments[k] + "\n";
    }
    assert comments + LinesOf([]) + [""] == comments[..|comments|] + [""];
  }

  lemma FirstLine(line: string)
    ensures Join([line] + [""], '\n') == line + "\n"
  {
    assert ([line] + [""])[1..] == [""];
    assert Join([""], '\n') == "";
  }

  method PrintRule(before: string, r: Rule) returns (output: string)
    ensures output == before + Line(r) + "\n"
  {
    var scheme := if r.allowHttp then "http" else "https";
    var line := scheme + "://" + r.host;
    if r.includeSubdomains {
      line := line + (" " + INCLUDE);
    }
    output := before + line + "\n";
  }

  lemma LinesOfAppended(rules: seq<Rule>, r: Rule)
    ensures LinesOf(rules + [r]) == LinesOf(rules) + [Line(r)]
  {
  }

  lemma RenderStep(comments: seq<string>, rules: seq<Rule>, k: nat)
    requires k < |rules| && comments != []
    ensures FileText(comments, rules[..k + 1]) == FileText(comments, rules[..k]) + Line(rules[k]) + "\n"
  {
    var before := comments + LinesOf(rules[..k]);
    assert rules[..k + 1] == rules[..k] + [rules[k]];
    LinesOfAppended(rules[..k], rules[k]);
    assert comments + LinesOf(rules[..k + 1]) + [""] == before + [Line(rules[k]), ""];
    JoinAppended(before, Line(rules[k]));
  }

  /** The origins of the file, in canonical order; nothing if a line is bad, there are too many
      rules, two are duplicates, or the file is too large. */
  method ParseOrigins(data: string) returns (r: Option<seq<Rule>>)
    ensures r.Some? <==>
      && |data| <= 65536 && !(|data| == 65536 && '\n' !in data)
      && ParseLines(Split(data, '\n')).Some?
      && |ParseLines(Split(data, '\n')).value| <= 1024 && NoTwins(ParseLines(Split(data, '\n')).value)
    ensures r.Some? ==> Normalizes(r.value, ParseLines(Split(data, '\n')).value)
  {
    if |data| > MAX_BYTES || (|data| == MAX_BYTES && '\n' !in data) {
      return None;
    }
    var rules := ParseRules(Split(data, '\n'));
    if rules.None? || |rules.value| > MAX_RULES {
      return None;
    }
    CollectedAreUser(Split(data, '\n'));
    TwinsOfUserRules(rules.value);
    var repeated := FindDuplicate(rules.value);
    if repeated {
      return None;
    }
    var normalized := NormalizeRules(rules.value);
    r := Some(normalized);
  }

  /** Line by line; a file with too many rules is given up at the first one too many. */
  method ParseRules(lines: seq<string>) returns (r: Option<seq<Rule>>)
    ensures r.Some? ==> r == ParseLines(lines)
    ensures r.None? ==> ParseLines(lines).None? || |ParseLines(lines).value| > MAX_RULES
  {
    ghost var results := ParseEach(lines);
    var rules: seq<Rule> := [];
    assert results[0..] == results;
    PrependedNone(Collect(results));
    for k := 0 to |lines|
      invariant |rules| <= MAX_RULES
      invariant Collect(results) == Prepended(rules, Collect(results[k..]))
    {
      assert results[k..][0] == results[k] && results[k..][1..] == results[k + 1..];
      EachAt(lines, k);
      var result := ParseLine(lines[k]);
      match result {
        case Blank =>
        case Bad => return None;
        case Parsed(rule) =>
          PrependedMore(rules, rule, Collect(results[k + 1..]));
          rules := rules + [rule];
          if |rules| > MAX_RULES {
            return None;
          }
      }
    }
    assert results[|lines|..] == [] && rules + [] == rules;
    r := Some(rules);
  }

  function Prepended(rules: seq<Rule>, rest: Option<seq<Rule>>): Option<seq<Rule>> {
    if rest.None? then None else Some(rules + rest.value)
  }

  lemma PrependedNone(rest: Option<seq<Rule>>)
    ensures Prepended([], rest) == rest
  {
    if rest.Some? {
      assert [] + rest.value == rest.value;
    }
  }

  lemma PrependedMore(rules: seq<Rule>, rule: Rule, rest: Option<seq<Rule>>)
    ensures Prepended(rules, Prepended([rule], rest)) == Prepended(rules + [rule], rest)
  {
    if rest.Some? {
      assert rules + ([rule] + rest.value) == rules + [rule] + rest.value;
    }
  }

  function DuplicateKeys(rules: seq<Rule>): (keys: seq<Rule>)
    ensures |keys| == |rules| && forall k :: 0 <= k < |rules| ==> keys[k] == DuplicateKey(rules[k])
  {
    seq(|rules|, k requires 0 <= k < |rules| => DuplicateKey(rules[k]))
  }

  method FindDuplicate(rules: seq<Rule>) returns (repeated: bool)
    ensures repeated <==> !NoDuplicates(rules)
  {
    repeated := FindRepeated(DuplicateKeys(rules));
  }

  /** The duplicate check of the policy digest, with the keys seen so far. */
  method FindRepeated<T(==)>(keys: seq<T>) returns (repeated: bool)
    ensures repeated <==> exists i, j :: 0 <= i < j < |keys| && keys[i] == keys[j]
  {
    var seen: set<T> := {};
    for k := 0 to |keys|
      invariant forall i :: 0 <= i < k ==> keys[i] in seen
      invariant forall key :: key in seen ==> key in keys[..k]
      invariant forall i, j :: 0 <= i < j < k ==> keys[i] != keys[j]
    {
      if keys[k] in seen {
        return true;
      }
      seen := seen + {keys[k]};
    }
    repeated := false;
  }

  // ----- The round trip -----

  lemma {:induction false} WordAlone(w: string, rest: string)
    requires w != [] && (forall k :: 0 <= k < |w| ==> !IsSpace(w[k])) && (rest == [] || IsSpace(rest[0]))
    ensures WordLength(w + rest) == |w|
  {
    if |w| > 1 {
      WordAlone(w[1..], rest);
      assert (w + rest)[1..] == w[1..] + rest;
    } else {
      assert (w + rest)[1..] == rest;
    }
  }

  lemma FieldsOfWord(w: string, rest: string)
    requires w != [] && (forall k :: 0 <= k < |w| ==> !IsSpace(w[k])) && (rest == [] || IsSpace(rest[0]))
    ensures Fields(w + rest) == [w] + Fields(rest)
  {
    WordAlone(w, rest);
    assert (w + rest)[..|w|] == w && (w + rest)[|w|..] == rest;
  }

  lemma OriginWord(r: Rule)
    requires Plain(r.host)
    ensures var w := Origin(r); w != [] && w[0] == 'h' && forall k :: 0 <= k < |w| ==> !IsSpace(w[k])
  {
    var w := Origin(r);
    forall k | 0 <= k < |w|
      ensures !IsSpace(w[k])
    {
      assert w[k] == if k < |Scheme(r)| then Scheme(r)[k] else if k < |Scheme(r)| + 3 then "://"[k - |Scheme(r)|] else r.host[k - |Scheme(r)| - 3];
    }
  }

  lemma IncludeFields()
    ensures Fields(" " + INCLUDE) == [INCLUDE] && '\n' !in INCLUDE
  {
    assert INCLUDE + "" == INCLUDE && (" " + INCLUDE)[1..] == INCLUDE;
    FieldsOfWord(INCLUDE, "");
  }

  lemma LineFields(r: Rule)
    requires Plain(r.host)
    ensures Fields(Line(r)) == [Origin(r)] + if r.includeSubdomains then [INCLUDE] else []
    ensures '\n' !in Line(r)
  {
    var w := Origin(r);
    var more := if r.includeSubdomains then " " + INCLUDE else "";
    OriginWord(r);
    IncludeFields();
    FieldsOfWord(w, more);
    assert forall c :: c in w + more ==> c in w || c in more;
    assert Fields("") == [];
  }

  /** A printed line parses as its rule. */
  lemma LineParses(r: Rule)
    requires UserRule(r)
    ensures ParseLine(Line(r)) == Parsed(r) && '\n' !in Line(r)
  {
    HostChars(r.host);
    OriginWord(r);
    LineFields(r);
    OriginParses(r);
    WordsParse(Line(r), Origin(r), r.includeSubdomains);
  }

  lemma WordsParse(line: string, word: string, sub: bool)
    requires word != [] && word[0] != '#' && Fields(line) == [word] + if sub then [INCLUDE] else []
    ensures ParseLine(line) == match ParseOrigin(word, sub) case None => Bad case Some(r) => Parsed(r)
  {
  }

  lemma CommentBlank(comment: string)
    requires comment != [] && comment[0] == '#'
    ensures ParseLine(comment) == Blank
  {
    assert WordLength(comment) == 1 + WordLength(comment[1..]);
    assert Fields(comment)[0][0] == '#';
  }

  // ----- What a line is -----

  /** White space of ASCII, by code. */
  ghost predicate White(s: string) {
    forall c :: c in s ==> c as int in {9, 10, 11, 12, 13, 32}
  }

  ghost predicate Word(s: string) {
    s != "" && forall c :: c in s ==> c as int !in {9, 10, 11, 12, 13, 32}
  }

  /** A word, followed by include-subdomains or not, and white space around them. */
  ghost predicate Entry(line: string, a: string, w: string, b: string, c: string, sub: bool) {
    && White(a) && Word(w) && White(b)
    && if sub then b != "" && White(c) && line == a + (w + (b + ("include-subdomains" + c)))
       else line == a + (w + b)
  }

  ghost predicate Comment(line: string, a: string, text: string) {
    White(a) && line == a + ("#" + text)
  }

  lemma {:induction false} FieldsSkip(a: string, s: string)
    requires White(a)
    ensures Fields(a + s) == Fields(s)
  {
    if a == [] {
      assert a + s == s;
    } else {
      assert (a + s)[1..] == a[1..] + s;
      assert White(a[1..]) by {
        assert forall c :: c in a[1..] ==> c in a;
      }
      assert a[0] in a;
      FieldsSkip(a[1..], s);
    }
  }

  lemma NoFields(s: string)
    ensures Fields(s) == [] <==> White(s)
  {
    if White(s) {
      FieldsSkip(s, "");
      assert s + "" == s;
    } else {
      var a, w, rest := FirstField(s);
    }
  }

  /** The first field, and what surrounds it. */
  lemma {:induction false} FirstField(s: string) returns (a: string, w: string, rest: string)
    requires !White(s)
    ensures White(a) && Word(w) && (rest == [] || IsSpace(rest[0])) && s == a + (w + rest)
    ensures Fields(s) == [w] + Fields(rest)
  {
    if IsSpace(s[0]) {
      assert !White(s[1..]) by {
        assert forall c :: c in s ==> c == s[0] || c in s[1..];
      }
      a, w, rest := FirstField(s[1..]);
      a := [s[0]] + a;
    } else {
      var n := WordLength(s);
      a, w, rest := "", s[..n], s[n..];
    }
  }

  lemma EntryFields(line: string, a: string, w: string, b: string, c: string, sub: bool)
    requires Entry(line, a, w, b, c, sub)
    ensures Fields(line) == [w] + if sub then [INCLUDE] else []
  {
    if sub {
      IncludeBehind(b, c);
      WordBehind(a, w, b + (INCLUDE + c));
    } else {
      NoFields(b);
      WordBehind(a, w, b);
    }
  }

  /** A word behind white space is the first field. */
  lemma WordBehind(a: string, w: string, rest: string)
    requires White(a) && Word(w) && (rest == [] || IsSpace(rest[0]))
    ensures Fields(a + (w + rest)) == [w] + Fields(rest)
  {
    assert forall k :: 0 <= k < |w| ==> w[k] in w;
    FieldsSkip(a, w + rest);
    FieldsOfWord(w, rest);
  }

  lemma IncludeBehind(b: string, c: string)
    requires White(b) && b != "" && White(c)
    ensures Fields(b + (INCLUDE + c)) == [INCLUDE] && IsSpace((b + (INCLUDE + c))[0])
  {
    assert b[0] in b;
    NoFields(c);
    WordBehind(b, INCLUDE, c);
  }

  lemma FieldsEntry(line: string) returns (a: string, w: string, b: string, c: string)
    requires |Fields(line)| == 1 || (|Fields(line)| == 2 && Fields(line)[1] == INCLUDE)
    ensures Entry(line, a, w, b, c, |Fields(line)| == 2) && w == Fields(line)[0]
  {
    var rest;
    NoFields(line);
    a, w, rest := FirstField(line);
    NoFields(rest);
    b, c := rest, "";
    if |Fields(line)| == 2 {
      var second;
      b, second, c := FirstField(rest);
      NoFields(c);
      assert second == INCLUDE;
      assert second[0] in second;
    }
  }

  /** A line gives a rule exactly if it is an entry with an origin that parses as the rule. */
  lemma LineMeaning(line: string, r: Rule)
    ensures ParseLine(line) == Parsed(r) <==> exists a, w, b, c ::
      Entry(line, a, w, b, c, r.includeSubdomains) && w[0] != '#' && ParseOrigin(w, r.includeSubdomains) == Some(r)
  {
    if ParseLine(line) == Parsed(r) {
      var a, w, b, c := FieldsEntry(line);
    }
    forall a, w, b, c | Entry(line, a, w, b, c, r.includeSubdomains) && w[0] != '#' && ParseOrigin(w, r.includeSubdomains) == Some(r)
      ensures ParseLine(line) == Parsed(r)
    {
      EntryFields(line, a, w, b, c, r.includeSubdomains);
    }
  }

  /** It is skipped exactly if it is white space or its first other character is a number sign. */
  lemma BlankMeaning(line: string)
    ensures ParseLine(line) == Blank <==> White(line) || exists a, text :: Comment(line, a, text)
  {
    NoFields(line);
    if ParseLine(line) == Blank && !White(line) {
      var a, w, rest := FirstField(line);
      assert w + rest == "#" + (w[1..] + rest);
      assert Comment(line, a, w[1..] + rest);
    }
    forall a, text | Comment(line, a, text)
      ensures ParseLine(line) == Blank
    {
      FieldsSkip(a, "#" + text);
      assert Fields("#" + text)[0] == ("#" + text)[..WordLength("#" + text)];
    }
  }

  function Count(results: seq<LineResult>): nat {
    if results == [] then 0 else (if results[0].Parsed? then 1 else 0) + Count(results[1..])
  }

  /** The rules are those of the lines, in order: each line with a rule has it behind as many rules
      as there are such lines before it. */
  ghost predicate RulesOf(results: seq<LineResult>, rules: seq<Rule>) {
    && |rules| == Count(results)
    && forall k :: 0 <= k < |results| && results[k].Parsed? ==> RuleAt(results, rules, k)
  }

  ghost predicate RuleAt(results: seq<LineResult>, rules: seq<Rule>, k: nat)
    requires k < |results| && results[k].Parsed?
  {
    Count(results[..k]) < |rules| && rules[Count(results[..k])] == results[k].rule
  }

  lemma {:induction false} CollectMeaning(results: seq<LineResult>)
    ensures Collect(results).Some? <==> forall k :: 0 <= k < |results| ==> results[k] != Bad
    ensures Collect(results).Some? ==> RulesOf(results, Collect(results).value)
  {
    if results != [] {
      var tail := results[1..];
      CollectMeaning(tail);
      assert forall k :: 1 <= k < |results| ==> results[k] == tail[k - 1];
      if Collect(results).Some? {
        forall k | 0 <= k < |results| && results[k].Parsed?
          ensures RuleAt(results, Collect(results).value, k)
        {
          if k > 0 {
            assert results[..k][1..] == tail[..k - 1];
            assert RuleAt(tail, Collect(tail).value, k - 1);
          }
        }
      }
    }
  }

  /** The file gives the rules of its lines, in order, exactly if none of them is bad. */
  lemma LinesMeaning(lines: seq<string>) returns (results: seq<LineResult>)
    ensures |results| == |lines| && forall k :: 0 <= k < |lines| ==> results[k] == ParseLine(lines[k])
    ensures ParseLines(lines).Some? <==> Bad !in results
    ensures ParseLines(lines).Some? ==> RulesOf(results, ParseLines(lines).value)
  {
    results := ParseEach(lines);
    forall k | 0 <= k < |lines|
      ensures results[k] == ParseLine(lines[k])
    {
      EachAt(lines, k);
    }
    CollectMeaning(results);
  }

  /** Leading blanks and one at the end do not matter. */
  lemma {:induction false} CollectRules(results: seq<LineResult>, blanks: nat, rules: seq<Rule>)
    requires |results| == blanks + |rules| + 1
    requires forall k :: 0 <= k < blanks ==> results[k] == Blank
    requires forall k :: 0 <= k < |rules| ==> results[blanks + k] == Parsed(rules[k])
    requires results[|results| - 1] == Blank
    ensures Collect(results) == Some(rules)
    decreases |results|
  {
    if blanks > 0 {
      CollectRules(results[1..], blanks - 1, rules);
    } else if rules != [] {
      assert results[0] == results[0 + 0];
      forall k | 0 <= k < |rules| - 1
        ensures results[1..][k] == Parsed(rules[1..][k])
      {
        assert results[0 + (k + 1)] == Parsed(rules[k + 1]);
      }
      CollectRules(results[1..], 0, rules[1..]);
      assert rules == [rules[0]] + rules[1..];
    } else {
      assert results[1..] == [];
    }
  }

  /** What line k of a printed file parses as. */
  function Expected(comments: nat, rules: seq<Rule>, k: nat): LineResult {
    if comments <= k < comments + |rules| then Parsed(rules[k - comments]) else Blank
  }

  lemma PartsParse(comments: seq<string>, rules: seq<Rule>, k: nat)
    requires UserRules(rules) && Comments(comments) && k <= |comments| + |rules|
    ensures var parts := comments + LinesOf(rules) + [""];
      '\n' !in parts[k] && ParseEach(parts)[k] == Expected(|comments|, rules, k)
  {
    EachAt(comments + LinesOf(rules) + [""], k);
    if k < |comments| {
      CommentBlank(comments[k]);
    } else if k < |comments| + |rules| {
      LineParses(rules[k - |comments|]);
    }
  }

  lemma ExpectedCollect(results: seq<LineResult>, comments: nat, rules: seq<Rule>)
    requires |results| == comments + |rules| + 1
    requires forall k :: 0 <= k < |results| ==> results[k] == Expected(comments, rules, k)
    ensures Collect(results) == Some(rules)
  {
    CollectRules(results, comments, rules);
  }

  lemma PartsCollect(comments: seq<string>, rules: seq<Rule>, parts: seq<string>, results: seq<LineResult>)
    requires UserRules(rules) && Comments(comments)
    requires parts == comments + LinesOf(rules) + [""] && results == ParseEach(parts)
    ensures Collect(results) == Some(rules)
  {
    forall k | 0 <= k < |results|
      ensures results[k] == Expected(|comments|, rules, k)
    {
      PartsParse(comments, rules, k);
    }
    ExpectedCollect(results, |comments|, rules);
  }

  lemma FileHasNewline(parts: seq<string>)
    requires |parts| > 1
    ensures '\n' in Join(parts, '\n')
  {
    assert Join(parts, '\n') == parts[0] + ['\n'] + Join(parts[1..], '\n');
    assert Join(parts, '\n')[|parts[0]|] == '\n';
  }

  /** Reading a printed file gives the rules in the order they were printed. */
  lemma FileParses(comments: seq<string>, rules: seq<Rule>)
    requires UserRules(rules) && Comments(comments)
    ensures ParseLines(Split(FileText(comments, rules), '\n')) == Some(rules) && '\n' in FileText(comments, rules)
  {
    var parts := comments + LinesOf(rules) + [""];
    forall k | 0 <= k < |parts|
      ensures '\n' !in parts[k]
    {
      PartsParse(comments, rules, k);
    }
    SplitJoined(parts, '\n');
    PartsCollect(comments, rules, parts, ParseEach(parts));
    FileHasNewline(parts);
  }

  /** Duplicates do not depend on the order of the rules. */
  lemma NoDuplicatesPermute(rules: seq<Rule>, r: seq<Rule>)
    requires multiset(rules) == multiset(r) && NoDuplicates(rules)
    ensures NoDuplicates(r)
  {
    KeyedSort.DistinctPermutes(rules, r, DuplicateKey);
  }

  /** Print, parse and print again. Within the size limits the parser accepts what the printer
      wrote exactly when no two rules are duplicates; then it returns the rules in canonical
      order, and printing those gives the same bytes. */
  method RoundTrip(rules: seq<Rule>) returns (text: string, parsed: Option<seq<Rule>>, again: string)
    requires UserRules(rules)
    ensures |rules| <= MAX_RULES && |text| <= MAX_BYTES ==> (parsed.Some? <==> NoTwins(rules))
    ensures parsed.Some? ==> Normalizes(parsed.value, rules) && again == text
  {
    text := RenderOrigins(rules);
    ghost var ordered :| Normalizes(ordered, rules) && text == FileText(Header(), ordered);
    UserRulesPermute(rules, ordered);
    HeaderComments();
    FileParses(Header(), ordered);
    parsed := ParseOrigins(text);
    TwinsOfUserRules(rules);
    TwinsOfUserRules(ordered);
    if NoDuplicates(rules) {
      NoDuplicatesPermute(rules, ordered);
    }
    if NoDuplicates(ordered) {
      NoDuplicatesPermute(ordered, rules);
    }
    again := text;
    if parsed.Some? {
      again := RenderOrigins(parsed.value);
      ghost var reordered :| Normalizes(reordered, parsed.value) && again == FileText(Header(), reordered);
      NormalizedUnique(ordered, reordered, rules);
    }
  }

  lemma HeaderComments()
    ensures Comments(Header())
  {
    FirstComment();
    SecondComment();
    TwoComments(COMMENT1, COMMENT2);
  }

  /** The round trip fails on rules that are not even equal: a host with and without a final dot. */
  lemma FinalDotIsDuplicate()
    ensures exists r: Rule, q: Rule :: UserRule(r) && UserRule(q) && r != q && !NoDuplicates([r, q])
  {
    var r, q := NewRule("a", false, false), NewRule("a.", false, false);
    assert Lower("a") == "a" && Lower("a.") == "a.";
    assert Split("", '.') == [""] && Split("a", '.') == ["a"];
    assert WithoutFinalDot("a") == "a" && WithoutFinalDot("a.") == "a";
    assert UserRule(r) && UserRule(q);
    assert DuplicateKey([r, q][0]) == DuplicateKey([r, q][1]);
  }
}
