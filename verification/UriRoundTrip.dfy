/** What uriSplit makes of a text that uriCompose printed (section 3 of RFC 3986). */
module UriRoundTrip {
  import opened Common
  import opened UriCharacters
  import opened UrlAutomata
  import opened UrlGrammar
  import opened HostGrammar
  import opened HttpParser
  import opened Uri

  // ----- legal parts -----

  predicate AllUserinfo(s: string) { forall k :: 0 <= k < |s| ==> LoginChar(s[k]) }

  /** Legal parts of a URI with a host name; "%d" prints the port, so it is below 2^31. */
  predicate Legal(p: Parts) {
    && p.scheme.Some? && LegalScheme(p.scheme.value)
    && p.host.Some? && IsName(p.host.value)
    && p.user.Some? == p.pass.Some?
    && (p.user.Some? ==> AllUserinfo(p.user.value) && ':' !in p.user.value && AllUserinfo(p.pass.value))
    && p.port < 0x8000_0000
    && (p.path.Some? ==> LegalPath(p.path.value))
    && (p.query.Some? ==> LegalQuery(p.query.value))
    && (p.fragment.Some? ==> LegalFragment(p.fragment.value))
  }

  /** A fragment directly behind the authority is refused by the parser. */
  predicate LooseFragment(p: Parts) { p.path.None? && p.query.None? && p.fragment.Some? }

  /** The number of '#' a text begins with. */
  function Hashes(s: string): (k: nat)
    ensures k <= |s| && (forall i :: 0 <= i < k ==> s[i] == '#') && (k < |s| ==> s[k] != '#')
  {
    if s == "" || s[0] != '#' then 0 else Hashes(s[1..]) + 1
  }

  /** What follows them. */
  function Unhashed(s: string): string { s[Hashes(s)..] }

  function NonEmpty(s: Option<string>): Option<string> { if s == Some("") then None else s }

  function CutOption(s: Option<string>): Option<string> { if s.Some? then Some(Cut(s.value)) else None }

  /**
   * What the parser keeps: a path with its '/', no empty query, no fragment but what follows its leading '#', and of
   * all of these what a 16-bit length leaves.
   */
  function Normal(p: Parts): Parts {
    p.(scheme := CutOption(p.scheme),
       path := if p.path.Some? then Some(Cut(PathText(p))) else None,
       query := CutOption(NonEmpty(p.query)),
       fragment := if p.fragment.Some? then CutOption(NonEmpty(Some(Unhashed(p.fragment.value)))) else None)
  }

  // ----- the scheme -----

  lemma SchemeStays(c: char)
    requires SchemeChar(c)
    ensures ParseUrlChar(Schema, c) == Schema
  {
  }

  lemma SchemeBegins(c: char)
    requires Letter(c)
    ensures ParseUrlChar(SpacesBeforeUrl, c) == Schema
  {
  }

  /** The scan behind scheme and "://". */
  function AfterScheme(p: Parts): Scan
    requires p.scheme.Some?
  {
    Scan(ServerStart, Some(SCHEMA), false, NO_FIELDS.(schema := Some(Span(0, Wrapped(|p.scheme.value|)))))
  }

  lemma ScanScheme(p: Parts)
    requires p.scheme.Some? && LegalScheme(p.scheme.value)
    ensures Run(START, 0, SchemeText(p)) == AfterScheme(p)
  {
    hide Run, SchemeChar, Letter, Wrapped;
    var s := p.scheme.value;
    SchemeIsScanned(s);
    var sc := Run(START, 0, s);
    RunConcat(START, 0, s, "://");
    RootIsRead(sc, |s|);
  }

  // ----- the port number -----

  lemma {:induction false} DecimalIsNumber(n: nat)
    ensures Decimal(n) != "" && Value(Decimal(n)) == n
    ensures forall k :: 0 <= k < |Decimal(n)| ==> DigitChar(Decimal(n)[k])
  {
    if n < 10 {
      assert [Digit(n)][..0] == "";
    } else {
      DecimalIsNumber(n / 10);
      var front := Decimal(n / 10);
      assert (front + [Digit(n % 10)])[..|front|] == front;
    }
  }

  /** "%d" prints the upper half of the unsigned numbers as negative ones. */
  lemma PrintedIsSigned(n: nat)
    requires n < 0x1_0000_0000
    ensures n <= 0x7fff_ffff ==> Value(Printed(n)) == n
    ensures n >= 0x8000_0000 ==>
              Printed(n) != "" && Printed(n)[0] == '-' && Value(Printed(n)[1..]) == 0x1_0000_0000 - n
  {
    hide Decimal, Value;
    if n < 0x8000_0000 {
      DecimalIsNumber(n);
    } else {
      DecimalIsNumber(0x1_0000_0000 - n);
      assert ("-" + Decimal(0x1_0000_0000 - n))[1..] == Decimal(0x1_0000_0000 - n);
    }
  }

  lemma {:induction false} DigitsEnd(s: string, rest: string)
    requires forall k :: 0 <= k < |s| ==> DigitChar(s[k])
    requires rest == "" || !DigitChar(rest[0])
    ensures DigitPrefix(s + rest) == s
  {
    SameClasses();
    hide DigitChar, IsNum;
    if s == "" {
      assert s + rest == rest;
    } else {
      DigitsEnd(s[1..], rest);
      assert (s + rest)[1..] == s[1..] + rest;
    }
  }

  // ----- the authority -----

  function Login(p: Parts): string
    requires p.user.Some? && p.pass.Some?
  {
    p.user.value + ":" + p.pass.value
  }

  function Authority(p: Parts): string
    requires p.port < 0x8000_0000
  {
    LoginText(p) + (HostText(p) + PortText(p))
  }

  lemma LoginIsUserinfo(p: Parts)
    requires Legal(p) && p.user.Some?
    ensures AllUserinfo(Login(p)) && Login(p) != "" && LoginText(p) == Login(p) + ['@']
  {
    hide LoginChar;
    assert LoginChar(':') by { ColonIsUserinfo(); }
  }

  lemma ColonIsUserinfo()
    ensures LoginChar(':')
  {
  }

  lemma PortIsNumber(p: Parts)
    requires p.port < 0x8000_0000 && p.port != 0
    ensures PortText(p) == [':'] + Decimal(p.port)
    ensures Decimal(p.port) != "" && Value(Decimal(p.port)) == p.port
    ensures forall k :: 0 <= k < |Decimal(p.port)| ==> DigitChar(Decimal(p.port)[k])
  {
    DecimalIsNumber(p.port);
  }

  lemma HostIsUserinfo(c: char)
    ensures NameChar(c) || DigitChar(c) ==> LoginChar(c)
  {
  }

  lemma ServerIsUserinfo(p: Parts)
    requires Legal(p)
    ensures AllUserinfo(HostText(p) + PortText(p)) && HostText(p) + PortText(p) != ""
  {
    hide LoginChar, DigitChar, NameChar, Decimal, Value;
    ColonIsUserinfo();
    if p.port != 0 {
      PortIsNumber(p);
    }
    var s := HostText(p) + PortText(p);
    forall k | 0 <= k < |s|
      ensures LoginChar(s[k])
    {
      HostIsUserinfo(s[k]);
    }
  }

  lemma ServerStays(c: char)
    requires LoginChar(c)
    ensures ParseUrlChar(ServerStart, c) == Server && ParseUrlChar(Server, c) == Server
            && ParseUrlChar(ServerWithAt, c) == Server
  {
  }

  /** Userinfo characters in the authority extend the host field, or begin it. */
  lemma ScanServer(sc: Scan, i: nat, s: string)
    requires s != "" && AllUserinfo(s)
    requires sc.state == ServerStart || ((sc.state == Server || sc.state == ServerWithAt) && sc.last == Some(HOST))
    requires sc.last == Some(HOST) ==> sc.f.host.Some?
    ensures var was := if sc.last == Some(HOST) then sc.f.host.value else Span(i, 0);
            var host := Span(was.off, Wrapped(was.len + |s|));
            Run(sc, i, s) == Scan(Server, Some(HOST), sc.foundAt, sc.f.(host := Some(host)))
  {
    hide Run, LoginChar;
    forall k | 0 <= k < |s|
      ensures ParseUrlChar(sc.state, s[k]) == Server && ParseUrlChar(Server, s[k]) == Server
    {
      assert LoginChar(s[k]);
      ServerStays(s[k]);
    }
    hide ParseUrlChar;
    RunField(sc, i, s, Server, HOST);
  }

  lemma ScanAt(sc: Scan, i: nat)
    requires sc.state == Server && sc.last == Some(HOST) && sc.f.host.Some?
    ensures var host := Span(sc.f.host.value.off, Wrapped(sc.f.host.value.len + 1));
            Run(sc, i, ['@']) == Scan(ServerWithAt, Some(HOST), true, sc.f.(host := Some(host)))
  {
    RunNothing(sc, i);
    RunOneMore(sc, i, [], '@');
    assert [] + ['@'] == ['@'];
  }

  /** The scan behind the authority, which begins at offset i. */
  function AfterAuthority(p: Parts, sc: Scan, i: nat): Scan
    requires p.port < 0x8000_0000
  {
    Scan(Server, Some(HOST), p.user.Some?, sc.f.(host := Some(Span(i, Wrapped(|Authority(p)|)))))
  }

  lemma ScanAuthority(p: Parts, sc: Scan, i: nat)
    requires Legal(p) && sc.state == ServerStart && sc.last == Some(SCHEMA) && !sc.foundAt
    ensures Run(sc, i, Authority(p)) == AfterAuthority(p, sc, i)
  {
    hide Run, Wrapped, LegalScheme, IsName, AllUserinfo, LegalPath, LegalQuery, LegalFragment, HostText, PortText;
    var server := HostText(p) + PortText(p);
    ServerIsUserinfo(p);
    if p.user.None? {
      assert Authority(p) == server;
      ScanServer(sc, i, server);
    } else {
      LoginOnBothSides(p);
      LoginIsUserinfo(p);
      hide Login, LoginText;
      var login := Login(p);
      ScanServer(sc, i, login);
      RunConcat(sc, i, login, ['@']);
      ScanAt(Run(sc, i, login), i + |login|);
      RunConcat(sc, i, login + ['@'], server);
      ScanServer(Run(sc, i, login + ['@']), i + |login| + 1, server);
      WrappedSum(|login|, 1);
      WrappedSum(|login| + 1, |server|);
    }
  }

  lemma LoginOnBothSides(p: Parts)
    requires Legal(p)
    ensures p.user.Some? <==> p.pass.Some?
    ensures p.user.None? ==> LoginText(p) == ""
  {
  }

  /** The host loop over the whole authority, which begins at offset i. */
  function AfterHost(p: Parts, i: nat): HostScan
    requires Legal(p)
  {
    var at := i + |LoginText(p)|;
    HostScan(if p.port != 0 then Port else Host, Span(at, Wrapped(|p.host.value|)),
             if p.port != 0 then Some(Span(at + |p.host.value| + 1, Wrapped(|Decimal(p.port)|))) else None,
             if p.user.Some? then Some(Span(i, Wrapped(|Login(p)|))) else None)
  }

  lemma HostLogin(p: Parts, h: HostScan, i: nat)
    requires Legal(p) && h.state == (if p.user.Some? then UserinfoStart else HostStart) && h.userinfo == None
    ensures HostRun(h, i, LoginText(p)) ==
            h.(state := HostStart, userinfo := if p.user.Some? then Some(Span(i, Wrapped(|Login(p)|))) else None)
  {
    hide HostRun, Wrapped, LegalScheme, IsName, LoginChar, LegalPath, LegalQuery, LegalFragment;
    if p.user.None? {
      HostRunNothing(h, i);
    } else {
      LoginIsUserinfo(p);
      hide Login, LoginText;
      SameClasses();
      HostRunUserinfo(h, i, Login(p));
      HostRunConcat(h, i, Login(p), ['@']);
      HostRunChar(HostRun(h, i, Login(p)), i + |Login(p)|, '@');
    }
  }

  lemma HostPort(p: Parts, h: HostScan, i: nat)
    requires p.port < 0x8000_0000 && h.state == Host && h.port == None
    ensures HostRun(h, i, PortText(p)) ==
            h.(state := if p.port != 0 then Port else Host,
               port := if p.port != 0 then Some(Span(i + 1, Wrapped(|Decimal(p.port)|))) else None)
  {
    hide HostRun, Decimal, Value, Wrapped;
    if p.port == 0 {
      HostRunNothing(h, i);
    } else {
      PortIsNumber(p);
      HostRunChar(h, i, ':');
      HostRunConcat(h, i, [':'], Decimal(p.port));
      HostRunPort(h.(state := PortStart), i + 1, Decimal(p.port));
    }
  }

  lemma HostAuthority(p: Parts, h: HostScan, i: nat)
    requires Legal(p)
    requires h == HostScan(if p.user.Some? then UserinfoStart else HostStart, Span(i, 0), None, None)
    ensures HostRun(h, i, Authority(p)) == AfterHost(p, i)
  {
    hide HostRun, Wrapped, LegalScheme, AllUserinfo, LegalPath, LegalQuery, LegalFragment, Decimal, Login, PortText;
    hide LoginText;
    var host := p.host.value;
    var server := HostText(p) + PortText(p);
    var at := i + |LoginText(p)|;
    HostLogin(p, h, i);
    HostRunConcat(h, i, LoginText(p), server);
    var h1 := HostRun(h, i, LoginText(p));
    HostRunConcat(h1, at, host, PortText(p));
    HostRunName(h1, at, host);
    HostPort(p, HostRun(h1, at, host), at + |host|);
  }

  // ----- path, query and fragment -----

  lemma Delimiters()
    ensures ParseUrlChar(Server, '?') == QueryStart && ParseUrlChar(Path, '?') == QueryStart
    ensures ParseUrlChar(Path, '#') == FragmentStart && ParseUrlChar(QueryStart, '#') == FragmentStart
    ensures ParseUrlChar(Query, '#') == FragmentStart && ParseUrlChar(Server, '#') == Dead
    ensures ParseUrlChar(ServerStart, '?') == QueryStart && ParseUrlChar(ServerStart, '#') == Dead
  {
  }

  function AfterPath(p: Parts, sc: Scan, i: nat): Scan {
    if p.path.None? then sc
    else Scan(Path, Some(PATH), sc.foundAt, sc.f.(path := Some(Span(i, Wrapped(|PathText(p)|)))))
  }

  lemma PathStays(c: char)
    requires PathChar(c)
    ensures ParseUrlChar(Path, c) == Path
  {
  }

  lemma PathIsLegal(p: Parts)
    requires p.path.Some? && LegalPath(p.path.value)
    ensures PathText(p) != "" && PathText(p)[0] == '/' && LegalPath(PathText(p))
  {
  }

  lemma ScanPath(p: Parts, sc: Scan, i: nat)
    requires p.path.Some? ==> LegalPath(p.path.value)
    requires (sc.state == ServerStart || sc.state == Server) && sc.last != Some(PATH)
    ensures Run(sc, i, PathText(p)) == AfterPath(p, sc, i)
  {
    hide Run, PathChar, Wrapped;
    if p.path.None? {
      RunNothing(sc, i);
    } else {
      PathIsLegal(p);
      hide PathText;
      var s := PathText(p);
      forall k | 0 <= k < |s|
        ensures ParseUrlChar(Path, s[k]) == Path
      {
        assert PathChar(s[k]);
        PathStays(s[k]);
      }
      RunField(sc, i, s, Path, PATH);
    }
  }

  function AfterQuery(p: Parts, sc: Scan, i: nat): Scan {
    if p.query.None? then sc
    else if p.query.value == "" then sc.(state := QueryStart)
    else Scan(Query, Some(QUERY), sc.foundAt, sc.f.(query := Some(Span(i + 1, Wrapped(|p.query.value|)))))
  }

  lemma QueryStays(c: char)
    requires PathChar(c) || c == '?'
    ensures ParseUrlChar(QueryStart, c) == Query && ParseUrlChar(Query, c) == Query
  {
  }

  lemma ScanQuery(p: Parts, sc: Scan, i: nat)
    requires p.query.Some? ==> LegalQuery(p.query.value)
    requires (sc.state == ServerStart || sc.state == Server || sc.state == Path) && sc.last != Some(QUERY)
    ensures Run(sc, i, QueryText(p)) == AfterQuery(p, sc, i)
  {
    hide Run, PathChar, Wrapped;
    if p.query.None? {
      RunNothing(sc, i);
    } else {
      var s := p.query.value;
      forall k | 0 <= k < |s|
        ensures ParseUrlChar(QueryStart, s[k]) == Query && ParseUrlChar(Query, s[k]) == Query
      {
        QueryStays(s[k]);
      }
      Delimiters();
      RunDelimiter(sc, i, '?');
      RunConcat(sc, i, ['?'], s);
      var sc1 := sc.(state := QueryStart);
      if s == "" {
        RunNothing(sc1, i + 1);
      } else {
        RunField(sc1, i + 1, s, Query, QUERY);
      }
    }
  }

  function AfterFragment(p: Parts, sc: Scan, i: nat): Scan {
    if p.fragment.None? then sc
    else
      var s := p.fragment.value;
      var k := Hashes(s);
      if k == |s| then sc.(state := FragmentStart)
      else Scan(Fragment, Some(FRAGMENT), sc.foundAt, sc.f.(fragment := Some(Span(i + 1 + k, Wrapped(|s| - k)))))
  }

  lemma FragmentStays(c: char)
    requires PathChar(c) || c == '?' || c == '#'
    ensures ParseUrlChar(Fragment, c) == Fragment
    ensures c != '#' ==> ParseUrlChar(FragmentStart, c) == Fragment
  {
  }

  /** Any number of '#' is skipped. */
  lemma {:induction false} ScanHashes(sc: Scan, i: nat, s: string)
    requires sc.state == FragmentStart && forall k :: 0 <= k < |s| ==> s[k] == '#'
    ensures Run(sc, i, s) == sc
  {
    if s != "" {
      ScanHashes(sc, i, s[..|s| - 1]);
    }
  }

  lemma FragmentTextStays(s: string, k: nat)
    requires LegalFragment(s) && k <= |s|
    ensures forall j :: 0 <= j < |s[k..]| ==> ParseUrlChar(Fragment, s[k..][j]) == Fragment
    ensures k < |s| && s[k] != '#' ==> ParseUrlChar(FragmentStart, s[k..][0]) == Fragment
  {
    hide ParseUrlChar, PathChar;
    forall j | 0 <= j < |s[k..]|
      ensures ParseUrlChar(Fragment, s[k..][j]) == Fragment
    {
      FragmentStays(s[k + j]);
    }
    if k < |s| {
      FragmentStays(s[k]);
    }
  }

  lemma ScanFragmentText(sc: Scan, i: nat, s: string)
    requires LegalFragment(s) && sc.state == FragmentStart && sc.last != Some(FRAGMENT)
    ensures var k := Hashes(s);
            var fragment := Some(Span(i + k, Wrapped(|s| - k)));
            Run(sc, i, s) == if k == |s| then sc
                             else Scan(Fragment, Some(FRAGMENT), sc.foundAt, sc.f.(fragment := fragment))
  {
    hide Run, PathChar, Wrapped, ParseUrlChar, LegalFragment;
    var k := Hashes(s);
    var rest := s[k..];
    FragmentTextStays(s, k);
    assert s == s[..k] + rest;
    RunConcat(sc, i, s[..k], rest);
    ScanHashes(sc, i, s[..k]);
    if rest == "" {
      RunNothing(sc, i + k);
    } else {
      RunField(sc, i + k, rest, Fragment, FRAGMENT);
    }
  }

  lemma ScanFragment(p: Parts, sc: Scan, i: nat)
    requires p.fragment.Some? ==> LegalFragment(p.fragment.value)
    requires p.fragment.Some? ==> sc.state == Path || sc.state == QueryStart || sc.state == Query
    requires sc.last != Some(FRAGMENT)
    ensures Run(sc, i, FragmentText(p)) == AfterFragment(p, sc, i)
  {
    hide Run, PathChar, Wrapped;
    if p.fragment.None? {
      RunNothing(sc, i);
    } else {
      Delimiters();
      hide ParseUrlChar;
      RunDelimiter(sc, i, '#');
      RunConcat(sc, i, ['#'], p.fragment.value);
      ScanFragmentText(sc.(state := FragmentStart), i + 1, p.fragment.value);
    }
  }

  // ----- the whole text -----

  /** Where the authority, the path, the query and the fragment begin. */
  function PathAt(p: Parts): nat
    requires p.port < 0x8000_0000
  {
    |SchemeText(p)| + |Authority(p)|
  }

  function QueryAt(p: Parts): nat
    requires p.port < 0x8000_0000
  {
    PathAt(p) + |PathText(p)|
  }

  function FragmentAt(p: Parts): nat
    requires p.port < 0x8000_0000
  {
    QueryAt(p) + |QueryText(p)|
  }

  function UpToQuery(p: Parts): string
    requires p.port < 0x8000_0000
  {
    SchemeText(p) + Authority(p) + PathText(p) + QueryText(p)
  }

  lemma TextIs(p: Parts)
    requires p.port < 0x8000_0000
    ensures ComposedText(p) == UpToQuery(p) + FragmentText(p)
  {
    hide SchemeText, LoginText, HostText, PortText, PathText, QueryText, FragmentText;
    assert SchemeText(p) + Authority(p) == SchemeText(p) + LoginText(p) + HostText(p) + PortText(p);
  }

  /** The scan up to the fragment. */
  function BeforeFragment(p: Parts): Scan
    requires Legal(p)
  {
    AfterQuery(p, AfterPath(p, AfterAuthority(p, AfterScheme(p), |SchemeText(p)|), PathAt(p)), QueryAt(p))
  }

  lemma ScanUpToQuery(p: Parts)
    requires Legal(p)
    ensures Run(START, 0, UpToQuery(p)) == BeforeFragment(p)
  {
    hide Run, SchemeText, Authority, PathText, QueryText;
    hide LegalScheme, IsName, AllUserinfo, LegalPath, LegalQuery, LegalFragment;
    var s, a, b, c := SchemeText(p), Authority(p), PathText(p), QueryText(p);
    ScanScheme(p);
    var sc1 := AfterScheme(p);
    RunConcat(START, 0, s, a);
    ScanAuthority(p, sc1, |s|);
    var sc2 := AfterAuthority(p, sc1, |s|);
    RunConcat(START, 0, s + a, b);
    ScanPath(p, sc2, PathAt(p));
    var sc3 := AfterPath(p, sc2, PathAt(p));
    RunConcat(START, 0, s + a + b, c);
    ScanQuery(p, sc3, QueryAt(p));
  }

  lemma ScanText(p: Parts)
    requires Legal(p)
    ensures if LooseFragment(p) then Run(START, 0, ComposedText(p)).state == Dead
            else Run(START, 0, ComposedText(p)) == AfterFragment(p, BeforeFragment(p), FragmentAt(p))
  {
    hide Run, UpToQuery, ComposedText;
    hide LegalScheme, IsName, AllUserinfo, LegalPath, LegalQuery, LegalFragment;
    TextIs(p);
    ScanUpToQuery(p);
    UpToQueryLength(p);
    RunConcat(START, 0, UpToQuery(p), FragmentText(p));
    var sc := BeforeFragment(p);
    if LooseFragment(p) {
      LooseIsDead(sc, FragmentAt(p), p.fragment.value);
    } else {
      ScanFragment(p, sc, FragmentAt(p));
    }
  }

  lemma UpToQueryLength(p: Parts)
    requires p.port < 0x8000_0000
    ensures |UpToQuery(p)| == FragmentAt(p)
  {
    hide SchemeText, Authority, PathText, QueryText;
  }

  lemma LooseIsDead(sc: Scan, i: nat, s: string)
    requires sc.state == Server || sc.state == ServerStart
    ensures Run(sc, i, "#" + s).state == Dead
  {
    hide Run;
    Delimiters();
    RunDelimiter(sc, i, '#');
    RunConcat(sc, i, ['#'], s);
    DeadIsFinal(sc.(state := Dead), i + 1, s);
  }

  // ----- where the pieces lie -----

  predicate At(t: string, i: nat, s: string) { i + |s| <= |t| && t[i..i + |s|] == s }

  lemma AtParts(t: string, i: nat, x: string, y: string)
    requires At(t, i, x + y)
    ensures At(t, i, x) && At(t, i + |x|, y)
  {
    var s := x + y;
    assert t[i..i + |x|] == t[i..i + |s|][..|x|] == s[..|x|] == x;
    assert t[i + |x|..i + |s|] == t[i..i + |s|][|x|..] == s[|x|..] == y;
  }

  lemma AtMain(p: Parts)
    requires p.port < 0x8000_0000
    ensures var t := ComposedText(p);
            && At(t, 0, SchemeText(p)) && At(t, |SchemeText(p)|, Authority(p)) && At(t, PathAt(p), PathText(p))
            && At(t, QueryAt(p), QueryText(p)) && At(t, FragmentAt(p), FragmentText(p))
            && |t| == FragmentAt(p) + |FragmentText(p)|
  {
    hide ComposedText, SchemeText, Authority, PathText, QueryText, FragmentText;
    var t := ComposedText(p);
    var s, a, b, c := SchemeText(p), Authority(p), PathText(p), QueryText(p);
    TextIs(p);
    assert At(t, 0, t);
    hide At;
    AtParts(t, 0, s + a + b + c, FragmentText(p));
    AtParts(t, 0, s + a + b, c);
    AtParts(t, 0, s + a, b);
    AtParts(t, 0, s, a);
  }

  lemma AtLogin(p: Parts, t: string, i: nat)
    requires Legal(p) && At(t, i, Authority(p))
    ensures p.user.Some? ==> At(t, i, Login(p))
    ensures At(t, i + |LoginText(p)|, p.host.value)
    ensures p.port != 0 ==> At(t, i + |LoginText(p)| + |p.host.value| + 1, Decimal(p.port))
    ensures |Authority(p)| == |LoginText(p)| + |p.host.value| + if p.port != 0 then 1 + |Decimal(p.port)| else 0
  {
    hide At, Decimal, Value, LegalScheme, IsName, AllUserinfo, LegalPath, LegalQuery, LegalFragment;
    AtParts(t, i, LoginText(p), HostText(p) + PortText(p));
    if p.user.Some? {
      LoginIsUserinfo(p);
      AtParts(t, i, Login(p), ['@']);
    }
    var j := i + |LoginText(p)|;
    AtParts(t, j, HostText(p), PortText(p));
    if p.port != 0 {
      PortIsNumber(p);
      AtParts(t, j + |HostText(p)|, [':'], Decimal(p.port));
    }
  }

  // ----- the fields -----

  /** Does the length of the authority fit into 16 bits? */
  predicate ShortAuthority(p: Parts)
    requires p.port < 0x8000_0000
  {
    |Authority(p)| < TWO_16
  }

  /** The fields of the whole text, if http_parse_host gets to see the whole authority. */
  function FinalFields(p: Parts): Fields
    requires Legal(p)
  {
    var h := AfterHost(p, |SchemeText(p)|);
    AfterFragment(p, BeforeFragment(p), FragmentAt(p)).f.(host := Some(h.host), port := h.port, userinfo := h.userinfo)
  }

  lemma HostOfText(p: Parts, f: Fields)
    requires Legal(p) && ShortAuthority(p) && f.host == Some(Span(|SchemeText(p)|, Wrapped(|Authority(p)|)))
    requires f.port.None? && f.userinfo.None? && Inside(f, |ComposedText(p)|)
    ensures HostEnd(ComposedText(p), f, p.user.Some?) == AfterHost(p, |SchemeText(p)|)
  {
    hide HostRun, ComposedText, SchemeText, Authority, AfterHost, Wrapped;
    WrappedFacts(|Authority(p)|);
    hide LegalScheme, IsName, AllUserinfo, LegalPath, LegalQuery, LegalFragment;
    AtMain(p);
    HostAuthority(p, HostBegin(f, |SchemeText(p)|, p.user.Some?), |SchemeText(p)|);
  }

  lemma FieldsOfText(p: Parts)
    requires Legal(p) && ShortAuthority(p) && !LooseFragment(p)
    ensures UrlFields(ComposedText(p)) == FinalFields(p)
    ensures var sc := Run(START, 0, ComposedText(p)); sc.state != Dead && !HostMissing(sc.f)
  {
    hide Run, HostEnd, ComposedText, SchemeText, Authority, AfterHost, Inside, PathText, Wrapped;
    hide LegalScheme, IsName, AllUserinfo, LegalPath, LegalQuery, LegalFragment;
    var t := ComposedText(p);
    ScanText(p);
    UrlScanned(t);
    HostOfText(p, Run(START, 0, t).f);
  }

  /** Behind the port stands nothing that strtoul would read on. */
  lemma NoDigitBehind(p: Parts)
    requires p.port < 0x8000_0000
    ensures PathAt(p) <= |ComposedText(p)|
    ensures var rest := ComposedText(p)[PathAt(p)..]; rest == "" || !DigitChar(rest[0])
  {
    hide ComposedText, SchemeText, Authority;
    AtMain(p);
    var t := ComposedText(p);
    var rest := t[PathAt(p)..];
    if PathText(p) != "" {
      assert rest[0] == PathText(p)[0] == '/';
    } else if QueryText(p) != "" {
      assert rest[0] == QueryText(p)[0];
    } else if FragmentText(p) != "" {
      assert rest[0] == FragmentText(p)[0];
    }
  }

  lemma PortOfText(p: Parts, f: Fields)
    requires Legal(p) && Inside(f, |ComposedText(p)|) && f.port == FinalFields(p).port
    ensures PortNumber(ComposedText(p), f) == p.port
  {
    hide ComposedText, SchemeText, Authority, Decimal, DigitPrefix, Value, AfterFragment, BeforeFragment, Inside;
    hide LoginText, Login, Wrapped;
    hide LegalScheme, IsName, AllUserinfo, LegalPath, LegalQuery, LegalFragment;
    if p.port != 0 {
      var t := ComposedText(p);
      AtMain(p);
      AtLogin(p, t, |SchemeText(p)|);
      NoDigitBehind(p);
      PortIsNumber(p);
      var off := f.port.value.off;
      var digits, rest := Decimal(p.port), t[PathAt(p)..];
      assert off + |digits| == PathAt(p);
      assert t[off..] == t[off..off + |digits|] + rest;
      DigitsEnd(digits, rest);
    }
  }

  // ----- the main results -----

  lemma ParsedText(p: Parts)
    requires Legal(p) && ShortAuthority(p)
    ensures Parsed(ComposedText(p)) ==
            if LooseFragment(p) || p.port > 0xffff then None else Some(Url(FinalFields(p), p.port))
  {
    hide Run, ComposedText, UrlFields, HostMissing, FinalFields, PortNumber, Inside, ShortAuthority;
    hide LegalScheme, IsName, AllUserinfo, LegalPath, LegalQuery, LegalFragment;
    ScanText(p);
    if !LooseFragment(p) {
      FieldsOfText(p);
      PortOfText(p, UrlFields(ComposedText(p)));
    }
  }

  lemma FirstColon(user: string, pass: string)
    requires ':' !in user
    ensures IndexOf(user + ":" + pass, ':') == |user|
  {
    var s := user + ":" + pass;
    assert s[|user|] == ':' && forall j :: 0 <= j < |user| ==> s[j] == user[j] != ':';
    assert forall k :: |user| < k <= |s| ==> s[..k][|user|] == ':';
  }

  lemma LoginSplits(p: Parts)
    requires Legal(p) && p.user.Some?
    ensures !NoColon(Some(Login(p))) && UserOf(Some(Login(p))) == p.user && PassOf(Some(Login(p))) == p.pass
  {
    hide LegalScheme, IsName, AllUserinfo, LegalPath, LegalQuery, LegalFragment, IndexOf;
    var user, pass := p.user.value, p.pass.value;
    FirstColon(user, pass);
    assert (user + ":" + pass)[..|user|] == user && (user + ":" + pass)[|user| + 1..] == pass;
  }

  lemma CopyAt(t: string, i: nat, s: string)
    requires At(t, i, s)
    ensures InsideOne(Some(Span(i, Wrapped(|s|))), |t|)
    ensures Copy(t, Some(Span(i, Wrapped(|s|)))) == Some(Cut(s))
    ensures |s| < TWO_16 ==> Cut(s) == s
  {
    hide Wrapped;
    WrappedFacts(|s|);
    assert t[i..i + Wrapped(|s|)] == t[i..i + |s|][..Wrapped(|s|)];
  }

  lemma CopyServer(p: Parts)
    requires Legal(p) && ShortAuthority(p) && Inside(FinalFields(p), |ComposedText(p)|)
    ensures var t, f := ComposedText(p), FinalFields(p);
            && Copy(t, f.schema) == CutOption(p.scheme) && Copy(t, f.host) == p.host
            && Copy(t, f.userinfo) == if p.user.Some? then Some(Login(p)) else None
  {
    hide ComposedText, Authority, Decimal, At, Copy, LoginText, Login, PathText, FragmentAt, QueryAt, PathAt, Wrapped;
    hide Cut;
    LoginLength(p);
    hide LegalScheme, IsName, AllUserinfo, LegalPath, LegalQuery, LegalFragment;
    var t := ComposedText(p);
    AtMain(p);
    AtParts(t, 0, p.scheme.value, "://");
    AtLogin(p, t, |SchemeText(p)|);
    CopyAt(t, 0, p.scheme.value);
    CopyAt(t, |SchemeText(p)| + |LoginText(p)|, p.host.value);
    if p.user.Some? {
      CopyAt(t, |SchemeText(p)|, Login(p));
    }
    CopyNothing(t);
  }

  lemma LoginLength(p: Parts)
    requires Legal(p)
    ensures |LoginText(p)| == if p.user.Some? then |Login(p)| + 1 else 0
  {
    hide LegalScheme, IsName, AllUserinfo, LegalPath, LegalQuery, LegalFragment;
  }

  lemma CopyNothing(t: string)
    ensures Copy(t, None) == None
  {
  }

  lemma CopyPath(p: Parts)
    requires Legal(p) && Inside(FinalFields(p), |ComposedText(p)|)
    ensures Copy(ComposedText(p), FinalFields(p).path) == Normal(p).path
  {
    hide ComposedText, SchemeText, Authority, Decimal, At, Copy, LoginText, Login, PathText, FragmentAt, QueryAt;
    hide PathAt;
    hide AfterHost, Wrapped, Cut;
    hide LegalScheme, IsName, AllUserinfo, LegalPath, LegalQuery, LegalFragment, Hashes;
    AtMain(p);
    CopyNothing(ComposedText(p));
    if p.path.Some? {
      CopyAt(ComposedText(p), PathAt(p), PathText(p));
    }
  }

  lemma CopyQuery(p: Parts)
    requires Legal(p) && Inside(FinalFields(p), |ComposedText(p)|)
    ensures Copy(ComposedText(p), FinalFields(p).query) == Normal(p).query
  {
    hide ComposedText, SchemeText, Authority, Decimal, At, Copy, LoginText, Login, PathText, FragmentAt, QueryAt;
    hide PathAt;
    hide AfterHost, Wrapped, Cut;
    hide LegalScheme, IsName, AllUserinfo, LegalPath, LegalQuery, LegalFragment, Hashes;
    var t := ComposedText(p);
    AtMain(p);
    CopyNothing(t);
    if p.query.Some? {
      AtParts(t, QueryAt(p), "?", p.query.value);
      CopyAt(t, QueryAt(p) + 1, p.query.value);
    }
  }

  lemma CopyFragment(p: Parts)
    requires Legal(p) && Inside(FinalFields(p), |ComposedText(p)|)
    ensures Copy(ComposedText(p), FinalFields(p).fragment) == Normal(p).fragment
  {
    hide ComposedText, SchemeText, Authority, Decimal, At, Copy, LoginText, Login, PathText, FragmentAt, QueryAt;
    hide PathAt;
    hide AfterHost, Wrapped, Cut;
    hide LegalScheme, IsName, AllUserinfo, LegalPath, LegalQuery, LegalFragment, Hashes;
    var t := ComposedText(p);
    AtMain(p);
    CopyNothing(t);
    if p.fragment.Some? {
      var s := p.fragment.value;
      var k := Hashes(s);
      AtParts(t, FragmentAt(p), "#", s);
      assert s == s[..k] + s[k..];
      AtParts(t, FragmentAt(p) + 1, s[..k], s[k..]);
      CopyAt(t, FragmentAt(p) + 1 + k, s[k..]);
    }
  }

  /**
   * uriSplit of a composed text with an authority that fits its length field: the normal form of the parts, or a
   * refusal in exactly two cases.
   */
  lemma SplitOfComposed(p: Parts)
    requires Legal(p) && ShortAuthority(p)
    ensures Split(ComposedText(p), true) ==
            if LooseFragment(p) || p.port > 0xffff then Err(KSI_INVALID_FORMAT) else Ok(Normal(p))
  {
    hide ComposedText, Parsed, FinalFields, Inside, Copy, Normal, Login, NoColon, UserOf, PassOf, IndexOf;
    hide ShortAuthority;
    hide LegalScheme, IsName, AllUserinfo, LegalPath, LegalQuery, LegalFragment;
    ParsedText(p);
    if !LooseFragment(p) && p.port <= 0xffff {
      CopyServer(p);
      CopyPath(p);
      CopyQuery(p);
      CopyFragment(p);
      NormalKeeps(p);
      if p.user.Some? {
        LoginSplits(p);
      } else {
        NoLogin();
      }
    }
  }

  lemma NormalKeeps(p: Parts)
    ensures var n := Normal(p);
            && n.scheme == CutOption(p.scheme) && n.user == p.user && n.pass == p.pass && n.host == p.host
            && n.port == p.port
  {
  }

  lemma NoLogin()
    ensures !NoColon(None) && UserOf(None) == None && PassOf(None) == None
  {
  }

  // ----- an authority that does not fit its length field -----

  function Ten(k: nat): nat { if k == 0 then 1 else 10 * Ten(k - 1) }

  lemma {:induction false} DecimalIsShort(n: nat, k: nat)
    requires k > 0 && n < Ten(k)
    ensures |Decimal(n)| <= k
  {
    if n >= 10 {
      DecimalIsShort(n / 10, k - 1);
    }
  }

  lemma TenDigits()
    ensures Ten(10) == 10_000_000_000
  {
    assert Ten(5) == 100_000;
  }

  /** Login and host are all of the authority but a few characters. */
  lemma AuthorityLength(p: Parts)
    requires Legal(p)
    ensures |Authority(p)| <= (if p.user.Some? then |Login(p)| else 0) + |p.host.value| + 12
  {
    hide LegalScheme, IsName, AllUserinfo, LegalPath, LegalQuery, LegalFragment, Login, Decimal, Ten;
    LoginLength(p);
    hide LoginText;
    TenDigits();
    DecimalIsShort(p.port, 10);
  }

  /** How long the parts are that uriSplit returns. */
  lemma SplitLengths(t: string, q: Parts)
    requires Split(t, true) == Ok(q)
    ensures var f := UrlFields(t);
            && Parsed(t).Some? && (q.host.Some? ==> |q.host.value| == LenOf(f.host))
            && (q.user.Some? ==> q.pass.Some? && |q.user.value| + 1 + |q.pass.value| == LenOf(f.userinfo))
  {
    hide UrlFields, Run, HostMissing, PortNumber, IndexOf, Inside, Copy;
    var f := Parsed(t).value.f;
    CopyLength(t, f);
  }

  lemma CopyLength(t: string, f: Fields)
    requires Inside(f, |t|)
    ensures f.host.Some? == Copy(t, f.host).Some? && f.userinfo.Some? == Copy(t, f.userinfo).Some?
    ensures f.host.Some? ==> |Copy(t, f.host).value| == f.host.value.len
    ensures f.userinfo.Some? ==> |Copy(t, f.userinfo).value| == f.userinfo.value.len
  {
  }

  lemma HostFieldLength(t: string, f: Fields)
    requires f.host.Some? && Inside(f, |t|)
    ensures |HostFieldText(t, f)| == f.host.value.len
  {
  }

  /** Its login and host do not both come back. */
  lemma LongAuthorityIsLost(p: Parts)
    requires Legal(p) && !ShortAuthority(p)
    ensures Split(ComposedText(p), true) != Ok(p)
  {
    hide Split, Run, HostRun, ComposedText, Inside, SchemeText, Authority, PathText, QueryText, Wrapped, HostMissing;
    hide PortNumber;
    hide LegalScheme, IsName, AllUserinfo, LegalPath, LegalQuery, LegalFragment;
    var t := ComposedText(p);
    ScanText(p);
    if Split(t, true) == Ok(p) {
      SplitLengths(t, p);
      UrlScanned(t);
      LongIsCut(|Authority(p)|);
      AuthorityLength(p);
      var f := Run(START, 0, t).f;
      var off := |SchemeText(p)|;
      HostFieldLength(t, f);
      HostRunDisjoint(HostBegin(f, off, p.user.Some?), off, HostFieldText(t, f));
    }
  }

  lemma LongIsCut(n: nat)
    requires n >= TWO_16
    ensures Wrapped(n) <= n - TWO_16
  {
  }

  // ----- the round trip -----

  /** Scheme, path, query and fragment that come back as they are printed. */
  predicate Kept(p: Parts) {
    && (p.scheme.Some? ==> |p.scheme.value| < TWO_16)
    && |PathText(p)| < TWO_16
    && (p.query.Some? ==> 0 < |p.query.value| < TWO_16)
    && (p.fragment.Some? ==> 0 < |p.fragment.value| < TWO_16 && p.fragment.value[0] != '#')
  }

  /** What a caller can check before composing. */
  predicate Regular(p: Parts)
    requires p.port < 0x8000_0000
  {
    && p.port <= 0xffff && !LooseFragment(p)
    && ShortAuthority(p) && Kept(p)
    && (p.path.Some? ==> p.path.value != "" && p.path.value[0] == '/')
  }

  /** The round trip holds for the regular parts and for no others. */
  lemma RoundTripIff(p: Parts)
    requires Legal(p)
    ensures Split(ComposedText(p), true) == Ok(p) <==> Regular(p)
  {
    hide Split, ComposedText, ShortAuthority, Cut;
    hide LegalScheme, IsName, AllUserinfo, LegalPath, LegalQuery, LegalFragment;
    CutsNothing(p.scheme.value);
    NormalPath(p);
    if p.query.Some? {
      CutsNothing(p.query.value);
    }
    if p.fragment.Some? {
      NormalFragment(p.fragment.value);
    }
    if ShortAuthority(p) {
      SplitOfComposed(p);
    } else {
      LongAuthorityIsLost(p);
    }
  }

  lemma CutsNothing(s: string)
    ensures |Cut(s)| <= |s| && (Cut(s) == s <==> |s| < TWO_16) && (|Cut(s)| == |s| <==> |s| < TWO_16)
  {
    WrappedFacts(|s|);
    hide Wrapped;
  }

  lemma NormalPath(p: Parts)
    ensures p.path.Some? ==> (Cut(PathText(p)) == p.path.value <==>
                              |PathText(p)| < TWO_16 && p.path.value != "" && p.path.value[0] == '/')
    ensures p.path.None? ==> |PathText(p)| < TWO_16
  {
    if p.path.Some? {
      var path := p.path.value;
      CutsNothing(PathText(p));
      if path == "" {
        CutsNothing("/");
      } else if path[0] != '/' && Cut(PathText(p)) != "" {
        assert Cut(PathText(p))[0] == '/';
      }
    }
  }

  lemma NormalFragment(s: string)
    ensures CutOption(NonEmpty(Some(Unhashed(s)))) == Some(s) <==> 0 < |s| < TWO_16 && s[0] != '#'
    ensures Unhashed(s) == s <==> s == "" || s[0] != '#'
  {
    hide Cut;
    CutsNothing(Unhashed(s));
    if s != "" && s[0] != '#' {
      assert Unhashed(s) == s;
    }
  }

  function Plain(path: string, fragment: Option<string>): Parts {
    Parts(Some("http"), None, None, Some("h"), 0, Some(path), None, fragment)
  }

  lemma PlainIsLegal(path: string, fragment: Option<string>)
    requires LegalPath(path) && (fragment.Some? ==> LegalFragment(fragment.value))
    ensures Legal(Plain(path, fragment)) && ShortAuthority(Plain(path, fragment))
            && !LooseFragment(Plain(path, fragment))
    ensures CutOption(Some("http")) == Some("http")
  {
    hide PathChar;
    CutsNothing("http");
  }

  /** The leading '#' of a fragment is lost, although its characters are legal. */
  lemma LeadingHashIsLost()
    ensures Legal(Plain("/", Some("#f")))
    ensures Split(ComposedText(Plain("/", Some("#f"))), true) == Ok(Plain("/", Some("f")))
  {
    hide Split, ComposedText, Legal, ShortAuthority;
    PlainIsLegal("/", Some("#f"));
    SplitOfComposed(Plain("/", Some("#f")));
    assert "#f"[1..] == "f";
    CutsNothing("f");
    CutsNothing("/");
  }

  /** '/' and 65535 more characters. */
  function LongPath(): string { "/" + seq(0xffff, _ => 'a') }

  lemma LongPathIsLegal()
    ensures LegalPath(LongPath()) && Cut(LongPath()) == "" && LongPath() != "" && LongPath()[0] == '/'
  {
  }

  /** A path of 2^16 characters comes back empty, although it is legal and its text fits into any larger buffer. */
  lemma LongPathIsLost()
    ensures Legal(Plain(LongPath(), None))
    ensures Split(ComposedText(Plain(LongPath(), None)), true) == Ok(Plain("", None))
  {
    hide Split, ComposedText, Legal, ShortAuthority, LongPath, Cut, LegalPath;
    LongPathIsLegal();
    PlainIsLegal(LongPath(), None);
    assert PathText(Plain(LongPath(), None)) == LongPath();
    SplitOfComposed(Plain(LongPath(), None));
  }

  lemma ComposedLength(p: Parts)
    requires p.port < 0x8000_0000
    ensures |ComposedText(p)| == |SchemeText(p)| + |Authority(p)| + |PathText(p)| + |QueryText(p)| + |FragmentText(p)|
  {
    hide SchemeText, LoginText, HostText, PortText, PathText, QueryText, FragmentText;
  }

  /** Each printed part of the normal form is at most as long as it was, and as long only if it was kept. */
  lemma NormalIsShorter(p: Parts)
    requires p.port < 0x8000_0000
    ensures var n := Normal(p);
            && n.port == p.port && Authority(n) == Authority(p)
            && |SchemeText(n)| <= |SchemeText(p)| && |PathText(n)| <= |PathText(p)|
            && |QueryText(n)| <= |QueryText(p)| && |FragmentText(n)| <= |FragmentText(p)|
            && (Kept(p) <==> |SchemeText(n)| == |SchemeText(p)| && |PathText(n)| == |PathText(p)|
                             && |QueryText(n)| == |QueryText(p)| && |FragmentText(n)| == |FragmentText(p)|)
            && (Kept(p) ==> SchemeText(n) == SchemeText(p) && PathText(n) == PathText(p)
                            && QueryText(n) == QueryText(p) && FragmentText(n) == FragmentText(p))
  {
    hide Cut;
    var n := Normal(p);
    assert LoginText(n) == LoginText(p) && HostText(n) == HostText(p) && PortText(n) == PortText(p);
    if p.scheme.Some? {
      CutsNothing(p.scheme.value);
    }
    NormalPathText(p);
    if p.query.Some? {
      CutsNothing(p.query.value);
    }
    if p.fragment.Some? {
      NormalFragment(p.fragment.value);
      CutsNothing(Unhashed(p.fragment.value));
    }
  }

  lemma NormalPathText(p: Parts)
    ensures var n := Normal(p);
            && |PathText(n)| <= |PathText(p)| && (|PathText(n)| == |PathText(p)| <==> |PathText(p)| < TWO_16)
            && (|PathText(p)| < TWO_16 ==> PathText(n) == PathText(p))
  {
    hide NonEmpty, CutOption, Hashes;
    if p.path.Some? {
      CutsNothing(PathText(p));
      var cut := Cut(PathText(p));
      assert cut != "" ==> cut[0] == '/';
    }
  }

  /** Composing what was split from a composed text prints the same text again if and only if every part was kept. */
  lemma ComposeAgainIff(p: Parts)
    requires Legal(p) && ShortAuthority(p) && !LooseFragment(p) && p.port <= 0xffff
    ensures Split(ComposedText(p), true).Ok? && Split(ComposedText(p), true).value.port == p.port
    ensures ComposedText(Split(ComposedText(p), true).value) == ComposedText(p) <==> Kept(p)
  {
    hide Split, ShortAuthority, Normal, Kept, SchemeText, PathText, QueryText, FragmentText, Authority, ComposedText;
    hide LegalScheme, IsName, AllUserinfo, LegalPath, LegalQuery, LegalFragment;
    SplitOfComposed(p);
    NormalIsShorter(p);
    ComposedLength(p);
    ComposedLength(Normal(p));
    TextIs(p);
    TextIs(Normal(p));
  }

  /**
   * A buffer that the whole text fits into holds a C string that splits into the parts; a smaller one holds a prefix.
   */
  lemma BufferRoundTrip(p: Parts, buf: seq<char>, count: nat)
    requires Legal(p) && Regular(p) && Printing(buf, count, ComposedText(p), true)
    ensures buf[count] == '\0' && buf[..count] <= ComposedText(p)
    ensures |ComposedText(p)| < |buf| ==> Split(buf[..count], true) == Ok(p)
  {
    hide Split, ComposedText, Regular, ShortAuthority;
    hide LegalScheme, IsName, AllUserinfo, LegalPath, LegalQuery, LegalFragment;
    RoundTripIff(p);
    if |ComposedText(p)| < |buf| {
      assert ComposedText(p)[..count] == ComposedText(p);
    }
  }

  /** Different regular parts are printed differently. */
  lemma ComposeIsInjective(p: Parts, q: Parts)
    requires Legal(p) && Regular(p) && Legal(q) && Regular(q) && ComposedText(p) == ComposedText(q)
    ensures p == q
  {
    hide Split, ComposedText, Regular, ShortAuthority;
    hide LegalScheme, IsName, AllUserinfo, LegalPath, LegalQuery, LegalFragment;
    RoundTripIff(p);
    RoundTripIff(q);
  }

  // ----- a host that the parser does not take -----

  /** A character of an authority that no host name has. */
  predicate IsForeign(c: char) { LoginChar(c) && !NameChar(c) && c != ':' }

  /** What the URL loop makes of http://authority/. */
  lemma ScanPlainUrl(host: string)
    requires host != "" && AllUserinfo(host)
    ensures Run(START, 0, "http://" + host + "/") ==
            Scan(Path, Some(PATH), false,
                 NO_FIELDS.(schema := Some(Span(0, 4)), host := Some(Span(7, Wrapped(|host|))),
                            path := Some(Span(7 + |host|, 1))))
  {
    hide Run, AllUserinfo, LoginChar;
    var p := Parts(Some("http"), None, None, Some(host), 0, Some("/"), None, None);
    HttpIsLegal();
    hide LegalScheme;
    ScanScheme(p);
    assert SchemeText(p) == "http://";
    RunConcat(START, 0, "http://", host);
    ScanServer(AfterScheme(p), 7, host);
    RunConcat(START, 0, "http://" + host, "/");
    SlashIsLegal();
    hide LegalPath;
    ScanPath(p, Run(START, 0, "http://" + host), 7 + |host|);
  }

  lemma HttpIsLegal()
    ensures LegalScheme("http")
  {
  }

  lemma SlashIsLegal()
    ensures LegalPath("/")
  {
  }

  /** The host loop stops at the foreign character and keeps what stands before it. */
  lemma HostStopsAtForeign(h: HostScan, i: nat, name: string, c: char, rest: string)
    requires IsName(name) && IsForeign(c) && h.state == HostStart && h.host.len == 0
    ensures HostRun(h, i, name + [c] + rest) == h.(state := HostDead, host := Span(i, Wrapped(|name|)))
  {
    hide HostRun;
    HostRunName(h, i, name);
    HostRunConcat(h, i, name, [c]);
    HostRunChar(h.(state := Host, host := Span(i, Wrapped(|name|))), i + |name|, c);
    HostRunConcat(h, i, name + [c], rest);
    HostDeadIsFinal(h.(state := HostDead, host := Span(i, Wrapped(|name|))), i + |name| + 1, rest);
  }

  /**
   * The failure of http_parse_host is ignored: for an authority that is a name, a foreign character and anything
   * else, uriSplit succeeds and names another host.
   */
  lemma WrongHostIsNamed(name: string, c: char, rest: string)
    requires IsName(name) && IsForeign(c) && AllUserinfo(rest) && |name| + 1 + |rest| < TWO_16
    ensures Split("http://" + (name + [c] + rest) + "/", true) ==
            Ok(Parts(Some("http"), None, None, Some(name), 0, Some("/"), None, None))
  {
    var host := name + [c] + rest;
    var t := "http://" + host + "/";
    hide Run, HostRun, IsName, IsForeign;
    HostIsAuthorityText(name, c, rest);
    hide AllUserinfo;
    ScanPlainUrl(host);
    UrlScanned(t);
    var f := Run(START, 0, t).f;
    assert HostFieldText(t, f) == host;
    HostStopsAtForeign(HostBegin(f, 7, false), 7, name, c, rest);
    var f' := f.(host := Some(Span(7, |name|)));
    assert UrlFields(t) == f';
    assert Parsed(t) == Some(Url(f', 0));
    assert t[7..7 + |name|] == name;
    assert t[0..4] == "http";
    assert t[7 + |host|..7 + |host| + 1] == "/";
  }

  lemma HostIsAuthorityText(name: string, c: char, rest: string)
    requires IsName(name) && IsForeign(c) && AllUserinfo(rest)
    ensures AllUserinfo(name + [c] + rest)
  {
    hide LoginChar, NameChar;
    var s := name + [c] + rest;
    forall k | 0 <= k < |s|
      ensures LoginChar(s[k])
    {
      HostIsUserinfo(s[k]);
    }
  }

  /** The exclamation mark is such a character. */
  lemma ExclamationEndsTheHost()
    ensures Split("http://a!b/", true) == Ok(Parts(Some("http"), None, None, Some("a"), 0, Some("/"), None, None))
  {
    assert IsName("a") && IsForeign('!') && AllUserinfo("b");
    hide Split, IsName, IsForeign, AllUserinfo;
    WrongHostIsNamed("a", '!', "b");
    assert "http://a!b/" == "http://" + ("a" + ['!'] + "b") + "/";
  }

  // ----- texts without an authority -----

  /** Legal parts without login, host and port. */
  predicate Hostless(p: Parts) {
    && p.scheme.Some? && LegalScheme(p.scheme.value)
    && p.user.None? && p.pass.None? && p.host.None? && p.port == 0
    && (p.path.Some? ==> LegalPath(p.path.value))
    && (p.query.Some? ==> LegalQuery(p.query.value))
    && (p.fragment.Some? ==> LegalFragment(p.fragment.value))
  }

  lemma ScanHostless(p: Parts)
    requires Hostless(p) && !LooseFragment(p)
    ensures var i := |SchemeText(p)|;
            var j, k := i + |PathText(p)|, i + |PathText(p)| + |QueryText(p)|;
            Run(START, 0, ComposedText(p)) == AfterFragment(p, AfterQuery(p, AfterPath(p, AfterScheme(p), i), j), k)
  {
    hide Run, SchemeText, PathText, QueryText, FragmentText;
    hide LegalScheme, LegalPath, LegalQuery, LegalFragment, Wrapped;
    var s, a, b, c := SchemeText(p), PathText(p), QueryText(p), FragmentText(p);
    assert LoginText(p) == "" && HostText(p) == "" && PortText(p) == "";
    assert ComposedText(p) == s + a + b + c;
    ScanScheme(p);
    RunConcat(START, 0, s, a);
    ScanPath(p, AfterScheme(p), |s|);
    var sc := AfterPath(p, AfterScheme(p), |s|);
    RunConcat(START, 0, s + a, b);
    ScanQuery(p, sc, |s| + |a|);
    RunConcat(START, 0, s + a + b, c);
    ScanFragment(p, AfterQuery(p, sc, |s| + |a|), |s| + |a| + |b|);
  }

  lemma ScanHostlessLoose(p: Parts)
    requires Hostless(p) && LooseFragment(p)
    ensures Run(START, 0, ComposedText(p)).state == Dead
  {
    hide Run, LegalScheme, LegalFragment, Wrapped;
    var s, c := SchemeText(p), FragmentText(p);
    assert ComposedText(p) == s + c;
    ScanScheme(p);
    RunConcat(START, 0, s, c);
    LooseIsDead(AfterScheme(p), |s|, p.fragment.value);
  }

  /** Without an authority only a path may follow: a query or a fragment with any characters is refused. */
  lemma HostlessIff(p: Parts)
    requires Hostless(p)
    ensures Parsed(ComposedText(p)).Some? <==>
            && p.path.Some? && (p.query.None? || p.query.value == "")
            && (p.fragment.None? || Unhashed(p.fragment.value) == "")
    ensures Parsed(ComposedText(p)).Some? ==>
              Split(ComposedText(p), true) == Ok(p.(scheme := CutOption(p.scheme), path := Some(Cut(PathText(p))),
                                                    query := None, fragment := None))
  {
    hide Run, LegalScheme, LegalPath, LegalQuery, LegalFragment, SchemeText, Wrapped, Cut;
    var t := ComposedText(p);
    if LooseFragment(p) {
      ScanHostlessLoose(p);
    } else {
      ScanHostless(p);
      if p.path.Some? {
        HostlessCopies(p);
      }
      hide ComposedText, PathText, Copy, InsideOne;
      UrlScanned(t);
    }
  }

  lemma HostlessCopies(p: Parts)
    requires Hostless(p) && p.path.Some?
    ensures var t, i := ComposedText(p), |SchemeText(p)|;
            && InsideOne(Some(Span(0, Wrapped(|p.scheme.value|))), |t|)
            && InsideOne(Some(Span(i, Wrapped(|PathText(p)|))), |t|)
            && Copy(t, Some(Span(0, Wrapped(|p.scheme.value|)))) == CutOption(p.scheme)
            && Copy(t, Some(Span(i, Wrapped(|PathText(p)|)))) == Some(Cut(PathText(p)))
            && Copy(t, None) == None
  {
    hide LegalScheme, LegalPath, LegalQuery, LegalFragment, Copy, Wrapped, Cut, PathText, At;
    var t := ComposedText(p);
    AtMain(p);
    assert Authority(p) == "";
    AtParts(t, 0, p.scheme.value, "://");
    CopyAt(t, 0, p.scheme.value);
    CopyAt(t, |SchemeText(p)|, PathText(p));
    CopyNothing(t);
  }

  /** A scheme alone, with or without the start of "://", is refused. */
  lemma SchemeAloneIsRefused(scheme: string, k: nat)
    requires LegalScheme(scheme) && k <= 3
    ensures Parsed(scheme + "://"[..k]).None?
  {
    hide Run, LegalScheme, Wrapped;
    SchemeIsScanned(scheme);
    var sc := Run(START, 0, scheme);
    RootIsRead(sc, |scheme|);
    RunConcat(START, 0, scheme, "://"[..k]);
    RootKeepsFields(sc, |scheme|, k);
  }

  lemma SchemeIsScanned(s: string)
    requires LegalScheme(s)
    ensures Run(START, 0, s) == Scan(Schema, Some(SCHEMA), false, NO_FIELDS.(schema := Some(Span(0, Wrapped(|s|)))))
  {
    hide Run, SchemeChar, Letter, Wrapped;
    forall k | 0 <= k < |s|
      ensures ParseUrlChar(Schema, s[k]) == Schema
    {
      SchemeStays(s[k]);
    }
    SchemeBegins(s[0]);
    hide ParseUrlChar;
    RunField(START, 0, s, Schema, SCHEMA);
  }

  lemma RootKeepsFields(sc: Scan, i: nat, k: nat)
    requires sc.state == Schema && k <= 3
    ensures Run(sc, i, "://"[..k]).f == sc.f
  {
    RootIsRead(sc, i);
    if k == 0 {
      assert "://"[..0] == "";
    } else if k == 1 {
      assert "://"[..1] == [':'];
      RunDelimiter(sc, i, ':');
    } else if k == 2 {
      assert "://"[..2] == [':'] + ['/'];
      RunDelimiter(sc, i, ':');
      RunDelimiter(sc.(state := SchemaSlash), i + 1, '/');
      RunConcat(sc, i, [':'], ['/']);
    } else {
      assert "://"[..3] == "://";
    }
  }
}
