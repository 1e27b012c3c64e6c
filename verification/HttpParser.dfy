/** The URL parser (src/ksi/http_parser.c): the loops that turn the runs of the automata into fields. */
module HttpParser {
  import opened Common
  import opened UrlAutomata
  import opened HostGrammar

  // ----- the host field -----

  function HostBegin(f: Fields, off: nat, foundAt: bool): HostScan {
    HostScan(if foundAt then UserinfoStart else HostStart, Span(off, 0), f.port, f.userinfo)
  }

  /** The text of the host field: the whole authority, until http_parse_host takes it apart. */
  function HostFieldText(buf: string, f: Fields): string
    requires f.host.Some? && Inside(f, |buf|)
  {
    buf[f.host.value.off..f.host.value.off + f.host.value.len]
  }

  /** The host loop over the text of the host field. */
  function HostEnd(buf: string, f: Fields, foundAt: bool): HostScan
    requires f.host.Some? && Inside(f, |buf|)
  {
    HostRun(HostBegin(f, f.host.value.off, foundAt), f.host.value.off, HostFieldText(buf, f))
  }

  lemma HostEndIff(buf: string, f: Fields, foundAt: bool)
    requires f.host.Some? && Inside(f, |buf|)
    ensures HostMayEnd(HostEnd(buf, f, foundAt).state) <==>
            if foundAt then IsServerWithLogin(HostFieldText(buf, f)) else IsServer(HostFieldText(buf, f))
  {
    hide HostRun, IsServer, IsServerWithLogin;
    var off := f.host.value.off;
    if foundAt {
      LoginIffAccepted(HostBegin(f, off, foundAt), off, HostFieldText(buf, f));
    } else {
      ServerIffAccepted(HostBegin(f, off, foundAt), off, HostFieldText(buf, f));
    }
  }

  /** What http_parse_host leaves in the fields, whether it succeeds or not. */
  function WithHost(f: Fields, h: HostScan): Fields { f.(host := Some(h.host), port := h.port, userinfo := h.userinfo) }

  lemma HostEndInside(buf: string, f: Fields, foundAt: bool)
    requires f.host.Some? && Scanned(f, |buf|)
    ensures Inside(WithHost(f, HostEnd(buf, f, foundAt)), |buf|)
  {
    hide HostRun;
    var was := f.host.value;
    HostRunInside(HostBegin(f, was.off, foundAt), was.off, buf[was.off..was.off + was.len]);
  }

  /** The loop of http_parse_host over buf[off..off + len]; it stops at the first character the automaton refuses. */
  method HostLoop(buf: string, off: nat, len: nat, begin: HostScan) returns (h: HostScan)
    requires off + len <= |buf| && begin.state != HostDead
    ensures h == HostRun(begin, off, buf[off..off + len])
  {
    hide HostRun, HostChar;
    ghost var text := buf[off..off + len];
    h := begin;
    var p := 0;
    assert text[..0] == [];
    HostRunNothing(begin, off);
    while p < len
      invariant p <= len && h == HostRun(begin, off, text[..p]) && h.state != HostDead
    {
      HostRunNext(begin, off, text, p);
      h := HostChar(h, buf[off + p], off + p);
      if h.state == HostDead {
        HostDeadEnds(begin, off, text, p + 1);
        return;
      }
      p := p + 1;
    }
    assert text[..len] == text;
  }

  /** http_parse_host. The result says whether it failed; the fields it has set by then stay set. */
  method ParseHost(buf: string, f: Fields, foundAt: bool) returns (f': Fields, failed: bool)
    requires f.host.Some? && Scanned(f, |buf|)
    ensures f' == WithHost(f, HostEnd(buf, f, foundAt)) && Inside(f', |buf|)
    ensures !failed <==> if foundAt then IsServerWithLogin(HostFieldText(buf, f)) else IsServer(HostFieldText(buf, f))
  {
    hide HostRun, IsServer, IsServerWithLogin;
    var was := f.host.value;
    HostEndIff(buf, f, foundAt);
    var h := HostLoop(buf, was.off, was.len, HostBegin(f, was.off, foundAt));
    HostEndInside(buf, f, foundAt);
    var s := h.state;
    failed := s.HostDead? || s.HostStart? || s.V6Start? || s.V6? || s.PortStart? || s.Userinfo? || s.UserinfoStart?;
    f' := WithHost(f, h);
  }

  // ----- the whole URL -----

  /** The number that a text begins with: strtoul in base ten, for a text that begins with a digit. */
  function DigitPrefix(s: string): string { if s == [] || !IsNum(s[0]) then "" else [s[0]] + DigitPrefix(s[1..]) }

  function Value(s: string): nat {
    if s == [] then 0 else 10 * Value(s[..|s| - 1]) + if IsNum(s[|s| - 1]) then s[|s| - 1] as int - '0' as int else 0
  }

  /** struct http_parser_url after a successful call. */
  datatype Url = Url(f: Fields, port: nat)

  /** A scheme needs a host, unless a path is the only other field. */
  predicate HostMissing(f: Fields) {
    && f.schema.Some? && f.host.None?
    && !(f.path.Some? && f.query.None? && f.fragment.None? && f.port.None? && f.userinfo.None?)
  }

  lemma UrlScanned(buf: string)
    ensures Scanned(Run(START, 0, buf).f, |buf|)
  {
    hide Run;
    RunInside(START, 0, buf);
  }

  /** The fields of the URL loop, with the host field taken apart where there is a scheme. */
  function UrlFields(buf: string): (f: Fields)
    ensures Inside(f, |buf|)
  {
    UrlScanned(buf);
    var sc := Run(START, 0, buf);
    if sc.f.schema.Some? && sc.f.host.Some? then
      HostEndInside(buf, sc.f, sc.foundAt);
      WithHost(sc.f, HostEnd(buf, sc.f, sc.foundAt))
    else sc.f
  }

  /** The number at the port field, zero without one. */
  function PortNumber(buf: string, f: Fields): nat
    requires Inside(f, |buf|)
  {
    if f.port.Some? then Value(DigitPrefix(buf[f.port.value.off..])) else 0
  }

  /** http_parser_parse_url without CONNECT; None stands for the return value 1. */
  function Parsed(buf: string): (r: Option<Url>)
    ensures r.Some? ==> Inside(r.value.f, |buf|) && r.value.port <= 0xffff
  {
    var sc := Run(START, 0, buf);
    if sc.state == Dead || HostMissing(sc.f) then None
    else
      var f := UrlFields(buf);
      if PortNumber(buf, f) > 0xffff then None else Some(Url(f, PortNumber(buf, f)))
  }

  /** The loop of http_parser_parse_url; it stops at the first character the automaton refuses. */
  method UrlLoop(buf: string) returns (sc: Scan)
    ensures sc == Run(START, 0, buf)
  {
    hide Run, ScanChar;
    sc := START;
    var p := 0;
    assert buf[..0] == [];
    RunNothing(START, 0);
    while p < |buf|
      invariant p <= |buf| && sc == Run(START, 0, buf[..p]) && sc.state != Dead
    {
      RunNext(START, 0, buf, p);
      sc := ScanChar(sc, buf[p], p);
      if sc.state == Dead {
        DeadEnds(START, 0, buf, p + 1);
        return;
      }
      p := p + 1;
    }
    assert buf[..|buf|] == buf;
  }

  method ParseUrl(buf: string) returns (r: Option<Url>)
    ensures r == Parsed(buf)
    ensures r.Some? ==> Inside(r.value.f, |buf|) && r.value.port <= 0xffff
  {
    hide Run, Inside, HostEnd, DigitPrefix, Value;
    var sc := UrlLoop(buf);
    if sc.state == Dead || HostMissing(sc.f) {
      return None;
    }
    UrlScanned(buf);
    var f := sc.f;
    if f.schema.Some? && f.host.Some? {
      var failed;
      f, failed := ParseHost(buf, f, sc.foundAt);
    }
    var port := 0;
    if f.port.Some? {
      var v := PortNumber(buf, f);
      if v > 0xffff {
        return None;
      }
      port := v;
    }
    return Some(Url(f, port));
  }

  // ----- where the authority stands -----

  /** Neither '/' nor '?', which end an authority. */
  predicate IsInner(c: char) { c != '/' && c != '?' }

  /** The first ':' is at a, "//" follows, and then e is the first '/' or '?', or the end of the text. */
  predicate IsAuthorityAt(buf: string, a: nat, e: nat) {
    && a + 3 <= e <= |buf|
    && buf[a] == ':' && buf[a + 1] == '/' && buf[a + 2] == '/' && (forall k :: 0 <= k < a ==> buf[k] != ':')
    && (forall k :: a + 3 <= k < e ==> IsInner(buf[k])) && (e < |buf| ==> !IsInner(buf[e]))
  }

  /** There is at most one such place. */
  lemma AuthorityIsUnique(buf: string, a: nat, e: nat, a': nat, e': nat)
    requires IsAuthorityAt(buf, a, e) && IsAuthorityAt(buf, a', e')
    ensures a == a' && e == e'
  {
  }

  /** What a 16-bit length leaves of a text. */
  function Cut(s: string): string { s[..Wrapped(|s|)] }

  /** The scheme ends at a, and the authority read so far at e. */
  ghost predicate HasAuthority(sc: Scan, buf: string, a: nat, e: nat) {
    && a + 3 <= e <= |buf|
    && sc.f.schema == Some(Span(0, Wrapped(a))) && sc.f.host == Some(Span(a + 3, Wrapped(e - a - 3)))
    && buf[a] == ':' && buf[a + 1] == '/' && buf[a + 2] == '/' && (forall k :: 0 <= k < a ==> buf[k] != ':')
    && (forall k :: a + 3 <= k < e ==> IsInner(buf[k]))
    && (sc.foundAt <==> exists k :: a + 3 <= k < e && buf[k] == '@')
  }

  /** No authority yet: the scheme of length a, and n - a of the three delimiters. */
  ghost predicate HasScheme(sc: Scan, buf: string, n: nat, a: nat) {
    && sc.f.schema == Some(Span(0, Wrapped(a))) && sc.f.host.None? && !sc.foundAt && sc.last == Some(SCHEMA)
    && a <= n <= |buf|
    && (forall k :: 0 <= k < a ==> buf[k] != ':')
    && (n > a ==> buf[a] == ':') && (n > a + 1 ==> buf[a + 1] == '/') && (n > a + 2 ==> buf[a + 2] == '/')
  }

  /** The authority goes on at n. */
  ghost predicate InAuthority(sc: Scan, buf: string, n: nat) {
    sc.last == Some(HOST) && exists a: nat :: a < n && HasAuthority(sc, buf, a, n)
  }

  /** The authority, if there is one, ended before n. */
  ghost predicate BehindAuthority(sc: Scan, buf: string, n: nat) {
    sc.f.host.Some? ==> exists a: nat, e: nat :: e < n && HasAuthority(sc, buf, a, e) && e < |buf| && !IsInner(buf[e])
  }

  /** What the state of the URL loop says about the first n characters. */
  ghost predicate Layout(sc: Scan, buf: string, n: nat) {
    n <= |buf| &&
    match sc.state
    case Dead => true
    case SpacesBeforeUrl => n == 0 && sc == START
    case Schema => n > 0 && HasScheme(sc, buf, n, n)
    case SchemaSlash => n > 1 && HasScheme(sc, buf, n, n - 1)
    case SchemaSlashSlash => n > 2 && HasScheme(sc, buf, n, n - 2)
    case ServerStart => n > 3 && HasScheme(sc, buf, n, n - 3)
    case Server => InAuthority(sc, buf, n)
    case ServerWithAt => InAuthority(sc, buf, n)
    case _ => BehindAuthority(sc, buf, n)
  }

  lemma LayoutScheme(sc: Scan, buf: string, n: nat)
    requires n < |buf| && Layout(sc, buf, n)
    requires sc.state == SpacesBeforeUrl || sc.state == Schema
             || sc.state == SchemaSlash || sc.state == SchemaSlashSlash
    ensures Layout(ScanChar(sc, buf[n], n), buf, n + 1)
  {
    hide HasAuthority, IsUrlChar, IsUserinfoChar, Wrapped;
    WrappedFacts(n);
  }

  lemma LayoutServerStart(sc: Scan, buf: string, n: nat)
    requires n < |buf| && Layout(sc, buf, n) && sc.state == ServerStart
    ensures Layout(ScanChar(sc, buf[n], n), buf, n + 1)
  {
    hide IsUrlChar, IsSchemeChar, IsUserinfoChar, Wrapped;
    WrappedFacts(0);
    var next := ScanChar(sc, buf[n], n);
    if next.state == Server || next.state == ServerWithAt {
      assert HasAuthority(next, buf, n - 3, n + 1);
    }
  }

  lemma LayoutServer(sc: Scan, buf: string, n: nat)
    requires n < |buf| && Layout(sc, buf, n) && (sc.state == Server || sc.state == ServerWithAt)
    ensures Layout(ScanChar(sc, buf[n], n), buf, n + 1)
  {
    hide IsUrlChar, IsSchemeChar, IsUserinfoChar, Wrapped;
    var next := ScanChar(sc, buf[n], n);
    var a: nat :| a < n && HasAuthority(sc, buf, a, n);
    WrappedFacts(n - a - 3);
    if next.state == Server || next.state == ServerWithAt {
      assert HasAuthority(next, buf, a, n + 1);
    } else if next.state != Dead {
      assert HasAuthority(next, buf, a, n);
    }
  }

  lemma LayoutRest(sc: Scan, buf: string, n: nat)
    requires n < |buf| && Layout(sc, buf, n)
    requires sc.state == Dead || sc.state == Path || sc.state == QueryStart || sc.state == Query
             || sc.state == FragmentStart || sc.state == Fragment
    ensures Layout(ScanChar(sc, buf[n], n), buf, n + 1)
  {
    hide IsUrlChar, IsSchemeChar, IsUserinfoChar, IsInner, HasScheme, Wrapped;
    var next := ScanChar(sc, buf[n], n);
    if sc.state != Dead && sc.f.host.Some? {
      var a: nat, e: nat :| e < n && HasAuthority(sc, buf, a, e) && e < |buf| && !IsInner(buf[e]);
      assert HasAuthority(next, buf, a, e);
    }
  }

  lemma {:induction false} LayoutAfter(buf: string, n: nat)
    requires n <= |buf|
    ensures Layout(Run(START, 0, buf[..n]), buf, n)
  {
    hide ScanChar, Run, InAuthority, BehindAuthority, HasScheme;
    if n == 0 {
      RunNothing(START, 0);
      assert buf[..0] == [];
    } else {
      LayoutAfter(buf, n - 1);
      RunNext(START, 0, buf, n - 1);
      var sc := Run(START, 0, buf[..n - 1]);
      match sc.state
      case SpacesBeforeUrl => LayoutScheme(sc, buf, n - 1);
      case Schema => LayoutScheme(sc, buf, n - 1);
      case SchemaSlash => LayoutScheme(sc, buf, n - 1);
      case SchemaSlashSlash => LayoutScheme(sc, buf, n - 1);
      case ServerStart => LayoutServerStart(sc, buf, n - 1);
      case Server => LayoutServer(sc, buf, n - 1);
      case ServerWithAt => LayoutServer(sc, buf, n - 1);
      case _ => LayoutRest(sc, buf, n - 1);
    }
  }

  /** The text of the authority; empty if there is none. */
  function AuthorityText(buf: string, a: nat, e: nat): string
    requires a + 3 <= e <= |buf|
  {
    buf[a + 3..e]
  }

  lemma OccursIn(buf: string, from: nat, to: nat, c: char)
    requires from <= to <= |buf|
    ensures c in buf[from..to] <==> exists k :: from <= k < to && buf[k] == c
  {
    if k :| from <= k < to && buf[k] == c {
      assert buf[from..to][k - from] == c;
    }
  }

  /**
   * An accepted text with a host field has an authority between the first "://" and the next '/' or '?', or the end.
   * '@' was noticed if and only if it occurs there, and the host field is what a 16-bit length leaves of it.
   */
  lemma HostFieldIsAuthority(buf: string) returns (a: nat, e: nat)
    requires var sc := Run(START, 0, buf); sc.state != Dead && sc.f.host.Some?
    ensures IsAuthorityAt(buf, a, e) && a + 3 <= e <= |buf|
    ensures var sc := Run(START, 0, buf);
            && Inside(sc.f, |buf|)
            && HostFieldText(buf, sc.f) == Cut(AuthorityText(buf, a, e))
            && (sc.foundAt <==> '@' in AuthorityText(buf, a, e))
  {
    hide Run, Inside, HasAuthority, IsAuthorityAt, Cut;
    UrlScanned(buf);
    LayoutAfter(buf, |buf|);
    assert buf[..|buf|] == buf;
    var sc := Run(START, 0, buf);
    if sc.state == Server || sc.state == ServerWithAt {
      e := |buf|;
      a :| a < |buf| && HasAuthority(sc, buf, a, |buf|);
    } else {
      a, e :| e < |buf| && HasAuthority(sc, buf, a, e) && !IsInner(buf[e]);
    }
    AuthorityIsThere(sc, buf, a, e);
  }

  lemma AuthorityIsThere(sc: Scan, buf: string, a: nat, e: nat)
    requires HasAuthority(sc, buf, a, e) && (e < |buf| ==> !IsInner(buf[e])) && Inside(sc.f, |buf|)
    ensures IsAuthorityAt(buf, a, e) && a + 3 <= e <= |buf|
    ensures HostFieldText(buf, sc.f) == Cut(AuthorityText(buf, a, e))
    ensures sc.foundAt <==> '@' in AuthorityText(buf, a, e)
  {
    hide Wrapped;
    WrappedFacts(e - a - 3);
    OccursIn(buf, a + 3, e, '@');
  }

  /**
   * When http_parse_host, whose result is ignored, ends well: for an authority of less than 2^16 characters exactly
   * if it is in the grammar, and in general exactly if what is left of it is, with user information if '@' occurred.
   */
  lemma HostEndsWellIff(buf: string, a: nat, e: nat)
    requires var sc := Run(START, 0, buf); sc.state != Dead && sc.f.host.Some?
    requires IsAuthorityAt(buf, a, e)
    ensures var sc, text := Run(START, 0, buf), AuthorityText(buf, a, e);
            && Inside(sc.f, |buf|)
            && (HostMayEnd(HostEnd(buf, sc.f, sc.foundAt).state) <==>
                if '@' in text then IsServerWithLogin(Cut(text)) else IsServer(Cut(text)))
            && (|text| < TWO_16 ==> (HostMayEnd(HostEnd(buf, sc.f, sc.foundAt).state) <==> IsAuthority(text)))
  {
    hide Run, Inside, HostRun, IsServer, IsServerWithLogin, Wrapped;
    var a', e' := HostFieldIsAuthority(buf);
    AuthorityIsUnique(buf, a, e, a', e');
    var sc, text := Run(START, 0, buf), AuthorityText(buf, a, e);
    HostEndIff(buf, sc.f, sc.foundAt);
    WrappedFacts(|text|);
    if |text| < TWO_16 {
      assert Cut(text) == text;
      if IsAuthority(text) {
        AtMeansLogin(text);
      }
    }
  }
}
