/**
 * The two character automata of the URL parser (src/ksi/http_parser.c), and their runs over a text. Both builds of the
 * library compile it with HTTP_PARSER_STRICT set to 0 (configure.ac:64, src/ksi/makefile:237), which is the form
 * modelled here. Characters stand for bytes.
 */
module UrlAutomata {
  import opened Common

  // ----- character classes -----

  predicate IsAlpha(c: char) { 'a' <= c <= 'z' || 'A' <= c <= 'Z' }

  predicate IsNum(c: char) { '0' <= c <= '9' }

  predicate IsAlphaNum(c: char) { IsAlpha(c) || IsNum(c) }

  predicate IsHex(c: char) { IsNum(c) || 'a' <= c <= 'f' || 'A' <= c <= 'F' }

  predicate IsMark(c: char) {
    c == '-' || c == '_' || c == '.' || c == '!' || c == '~' || c == '*' || c == '\'' || c == '(' || c == ')'
  }

  predicate IsUserinfoChar(c: char) {
    || IsAlphaNum(c) || IsMark(c)
    || c == '%' || c == ';' || c == ':' || c == '&' || c == '=' || c == '+' || c == '$' || c == ','
  }

  predicate IsSchemeChar(c: char) { IsAlphaNum(c) || c == '+' || c == '-' || c == '.' }

  /**
   * The bits set in normal_url_char (tab, form feed and visible ASCII except '#' and '?'), and the bytes above ASCII.
   */
  predicate IsUrlChar(c: char) {
    c == '\t' || c == '\U{000C}' || ('!' <= c <= '~' && c != '#' && c != '?') || '\U{0080}' <= c <= '\U{00FF}'
  }

  predicate IsHostChar(c: char) { IsAlphaNum(c) || c == '.' || c == '-' || c == '_' }

  // ----- the automata -----

  datatype State =
    | Dead | SpacesBeforeUrl | Schema | SchemaSlash | SchemaSlashSlash | ServerStart | Server | ServerWithAt
    | Path | QueryStart | Query | FragmentStart | Fragment

  function ParseUrlChar(s: State, c: char): State {
    if c == ' ' || c == '\r' || c == '\n' then Dead
    else
      match s
      case SpacesBeforeUrl => if c == '/' || c == '*' then Path else if IsAlpha(c) then Schema else Dead
      case Schema => if IsSchemeChar(c) then Schema else if c == ':' then SchemaSlash else Dead
      case SchemaSlash => if c == '/' then SchemaSlashSlash else Dead
      case SchemaSlashSlash => if c == '/' then ServerStart else Dead
      case ServerWithAt => if c == '@' then Dead else ParseServerChar(c)
      case ServerStart => ParseServerChar(c)
      case Server => ParseServerChar(c)
      case Path =>
        if IsUrlChar(c) then Path else if c == '?' then QueryStart else if c == '#' then FragmentStart else Dead
      case QueryStart => ParseQueryChar(c)
      case Query => ParseQueryChar(c)
      case FragmentStart => if IsUrlChar(c) || c == '?' then Fragment else if c == '#' then FragmentStart else Dead
      case Fragment => if IsUrlChar(c) || c == '?' || c == '#' then Fragment else Dead
      case Dead => Dead
  }

  function ParseServerChar(c: char): State {
    if c == '/' then Path
    else if c == '?' then QueryStart
    else if c == '@' then ServerWithAt
    else if IsUserinfoChar(c) || c == '[' || c == ']' then Server
    else Dead
  }

  function ParseQueryChar(c: char): State {
    if IsUrlChar(c) || c == '?' then Query else if c == '#' then FragmentStart else Dead
  }

  datatype HostState =
    | HostDead | UserinfoStart | Userinfo | HostStart | V6Start | Host | V6 | V6End | PortStart | Port

  function ParseHostChar(s: HostState, c: char): HostState {
    match s
    case UserinfoStart => ParseUserinfoChar(c)
    case Userinfo => ParseUserinfoChar(c)
    case HostStart => if c == '[' then V6Start else if IsHostChar(c) then Host else HostDead
    case Host => if IsHostChar(c) then Host else if c == ':' then PortStart else HostDead
    case V6End => if c == ':' then PortStart else HostDead
    case V6 => if c == ']' then V6End else if IsHex(c) || c == ':' || c == '.' then V6 else HostDead
    case V6Start => if IsHex(c) || c == ':' || c == '.' then V6 else HostDead
    case PortStart => if IsNum(c) then Port else HostDead
    case Port => if IsNum(c) then Port else HostDead
    case HostDead => HostDead
  }

  function ParseUserinfoChar(c: char): HostState {
    if c == '@' then HostStart else if IsUserinfoChar(c) then Userinfo else HostDead
  }

  // ----- fields -----

  datatype Field = SCHEMA | HOST | PORT | PATH | QUERY | FRAGMENT | USERINFO

  /** field_data: an offset and a length, which has 16 bits. */
  datatype Span = Span(off: nat, len: nat)

  const TWO_16 := 0x1_0000

  /** A length that fits into 16 bits. */
  function Wrapped(len: nat): nat { len % TWO_16 }

  lemma WrappedFacts(a: nat)
    ensures Wrapped(Wrapped(a) + 1) == Wrapped(a + 1) && Wrapped(1) == 1 && Wrapped(a) <= a
    ensures Wrapped(a) == a <==> a < TWO_16
  {
  }

  lemma WrappedSum(a: nat, b: nat)
    ensures Wrapped(Wrapped(a) + b) == Wrapped(a + b)
  {
  }

  /** field_set and field_data together: None where the bit is not set. */
  datatype Fields = Fields(schema: Option<Span>, host: Option<Span>, port: Option<Span>, path: Option<Span>,
                           query: Option<Span>, fragment: Option<Span>, userinfo: Option<Span>)

  const NO_FIELDS := Fields(None, None, None, None, None, None, None)

  function Get(f: Fields, uf: Field): Option<Span> {
    match uf
    case SCHEMA => f.schema
    case HOST => f.host
    case PORT => f.port
    case PATH => f.path
    case QUERY => f.query
    case FRAGMENT => f.fragment
    case USERINFO => f.userinfo
  }

  function Set(f: Fields, uf: Field, span: Span): Fields {
    match uf
    case SCHEMA => f.(schema := Some(span))
    case HOST => f.(host := Some(span))
    case PORT => f.(port := Some(span))
    case PATH => f.(path := Some(span))
    case QUERY => f.(query := Some(span))
    case FRAGMENT => f.(fragment := Some(span))
    case USERINFO => f.(userinfo := Some(span))
  }

  lemma SetGet(f: Fields, uf: Field, span: Span)
    ensures Get(Set(f, uf, span), uf) == Some(span)
    ensures forall span' :: Set(Set(f, uf, span), uf, span') == Set(f, uf, span')
  {
  }

  predicate InsideOne(s: Option<Span>, n: nat) { s.Some? ==> s.value.off + s.value.len <= n }

  /** No field reaches beyond the first n characters. */
  predicate Inside(f: Fields, n: nat) {
    && InsideOne(f.schema, n) && InsideOne(f.host, n) && InsideOne(f.port, n) && InsideOne(f.path, n)
    && InsideOne(f.query, n) && InsideOne(f.fragment, n) && InsideOne(f.userinfo, n)
  }

  /** The field that a state collects; None for the delimiters. */
  function FieldOf(s: State): Option<Field> {
    match s
    case Schema => Some(SCHEMA)
    case Server => Some(HOST)
    case ServerWithAt => Some(HOST)
    case Path => Some(PATH)
    case Query => Some(QUERY)
    case Fragment => Some(FRAGMENT)
    case _ => None
  }

  // ----- the URL loop -----

  /** The variables of the loop in http_parser_parse_url. */
  datatype Scan = Scan(state: State, last: Option<Field>, foundAt: bool, f: Fields)

  const START := Scan(SpacesBeforeUrl, None, false, NO_FIELDS)

  /** The field data at offset i: one character longer, or begun anew; field data never written are zero. */
  function Longer(was: Option<Span>, anew: bool, i: nat): Span {
    if anew then Span(i, 1) else if was.None? then Span(0, 1) else Span(was.value.off, Wrapped(was.value.len + 1))
  }

  /** One turn of the loop at offset i. */
  function ScanChar(sc: Scan, c: char, i: nat): Scan {
    var s := ParseUrlChar(sc.state, c);
    match FieldOf(s)
    case None => sc.(state := s)
    case Some(uf) =>
      Scan(s, Some(uf), sc.foundAt || s.ServerWithAt?, Set(sc.f, uf, Longer(Get(sc.f, uf), sc.last != Some(uf), i)))
  }

  /** The loop over the characters s, which start at offset i. */
  function Run(sc: Scan, i: nat, s: string): Scan {
    if s == [] then sc else ScanChar(Run(sc, i, s[..|s| - 1]), s[|s| - 1], i + |s| - 1)
  }

  lemma RunOneMore(sc: Scan, i: nat, s: string, c: char)
    ensures Run(sc, i, s + [c]) == ScanChar(Run(sc, i, s), c, i + |s|)
  {
    hide ScanChar;
    assert (s + [c])[..|s|] == s;
  }

  lemma {:induction false} RunConcat(sc: Scan, i: nat, a: string, b: string)
    ensures Run(sc, i, a + b) == Run(Run(sc, i, a), i + |a|, b)
  {
    hide ScanChar;
    if b == [] {
      assert a + b == a;
    } else {
      var b' := b[..|b| - 1];
      RunConcat(sc, i, a, b');
      assert (a + b)[..|a + b| - 1] == a + b';
    }
  }

  /** What the URL loop keeps: no field beyond the characters read, and no port or user information yet. */
  ghost predicate Scanned(f: Fields, n: nat) { Inside(f, n) && f.port.None? && f.userinfo.None? }

  lemma SetInside(f: Fields, uf: Field, i: nat, anew: bool)
    requires Scanned(f, i) && uf != PORT && uf != USERINFO
    ensures Scanned(Set(f, uf, Longer(Get(f, uf), anew, i)), i + 1)
  {
  }

  lemma ScanCharInside(sc: Scan, c: char, i: nat)
    requires Scanned(sc.f, i)
    ensures Scanned(ScanChar(sc, c, i).f, i + 1)
  {
    hide ParseUrlChar, Set, Get, Longer;
    var s := ParseUrlChar(sc.state, c);
    if FieldOf(s).Some? {
      SetInside(sc.f, FieldOf(s).value, i, sc.last != FieldOf(s));
    }
  }

  lemma {:induction false} RunInside(sc: Scan, i: nat, s: string)
    requires Scanned(sc.f, i)
    ensures Scanned(Run(sc, i, s).f, i + |s|)
  {
    hide ScanChar, Scanned;
    if s != [] {
      RunInside(sc, i, s[..|s| - 1]);
      ScanCharInside(Run(sc, i, s[..|s| - 1]), s[|s| - 1], i + |s| - 1);
    }
  }

  lemma {:induction false} DeadIsFinal(sc: Scan, i: nat, s: string)
    requires sc.state == Dead
    ensures Run(sc, i, s) == sc
  {
    if s != [] {
      DeadIsFinal(sc, i, s[..|s| - 1]);
    }
  }

  // ----- the host loop -----

  /** The variables of the loop in http_parse_host. */
  datatype HostScan = HostScan(state: HostState, host: Span, port: Option<Span>, userinfo: Option<Span>)

  /** No field reaches beyond the first n characters, and the host is empty until its first character. */
  ghost predicate HostInside(h: HostScan, n: nat) {
    && InsideOne(Some(h.host), n) && InsideOne(h.port, n) && InsideOne(h.userinfo, n)
    && (h.state.UserinfoStart? || h.state.Userinfo? || h.state.HostStart? || h.state.V6Start? ==> h.host.len == 0)
  }

  /** One turn of the loop at offset i. */
  function HostChar(h: HostScan, c: char, i: nat): HostScan {
    var s := ParseHostChar(h.state, c);
    match s
    case Host => h.(state := s, host := Span(if h.state != s then i else h.host.off, Wrapped(h.host.len + 1)))
    case V6 => h.(state := s, host := Span(if h.state != s then i else h.host.off, Wrapped(h.host.len + 1)))
    case Port => h.(state := s, port := Some(Longer(h.port, h.state != s, i)))
    case Userinfo => h.(state := s, userinfo := Some(Longer(h.userinfo, h.state != s, i)))
    case _ => h.(state := s)
  }

  function HostRun(h: HostScan, i: nat, s: string): HostScan {
    if s == [] then h else HostChar(HostRun(h, i, s[..|s| - 1]), s[|s| - 1], i + |s| - 1)
  }

  lemma {:induction false} HostRunConcat(h: HostScan, i: nat, a: string, b: string)
    ensures HostRun(h, i, a + b) == HostRun(HostRun(h, i, a), i + |a|, b)
  {
    hide HostChar;
    if b == [] {
      assert a + b == a;
    } else {
      var b' := b[..|b| - 1];
      HostRunConcat(h, i, a, b');
      assert (a + b)[..|a + b| - 1] == a + b';
    }
  }

  lemma {:induction false} HostRunInside(h: HostScan, i: nat, s: string)
    requires HostInside(h, i)
    ensures HostInside(HostRun(h, i, s), i + |s|)
  {
    hide HostChar, HostInside;
    if s != [] {
      HostRunInside(h, i, s[..|s| - 1]);
      HostCharInside(HostRun(h, i, s[..|s| - 1]), s[|s| - 1], i + |s| - 1);
    }
  }

  lemma HostCharInside(h: HostScan, c: char, i: nat)
    requires HostInside(h, i)
    ensures HostInside(HostChar(h, c, i), i + 1)
  {
    hide IsHostChar, IsHex, IsUserinfoChar;
  }

  function LenOf(s: Option<Span>): nat { if s.Some? then s.value.len else 0 }

  /** Host and user information are made of different characters. */
  lemma {:induction false} HostRunDisjoint(h: HostScan, i: nat, s: string)
    requires h.host.len == 0 && h.userinfo.None? && (h.state == HostStart || h.state == UserinfoStart)
    ensures var r := HostRun(h, i, s);
            && r.host.len + LenOf(r.userinfo) <= |s|
            && (r.state == UserinfoStart ==> r.userinfo.None?)
  {
    hide IsHostChar, IsHex, IsUserinfoChar, Wrapped;
    if s != [] {
      var s' := s[..|s| - 1];
      HostRunDisjoint(h, i, s');
      var r := HostRun(h, i, s');
      WrappedFacts(r.host.len + 1);
      WrappedFacts(LenOf(r.userinfo) + 1);
    }
  }

  lemma {:induction false} HostDeadIsFinal(h: HostScan, i: nat, s: string)
    requires h.state == HostDead
    ensures HostRun(h, i, s) == h
  {
    if s != [] {
      HostDeadIsFinal(h, i, s[..|s| - 1]);
    }
  }

  lemma HostRunNothing(h: HostScan, i: nat)
    ensures HostRun(h, i, []) == h
  {
  }

  lemma HostRunNext(h: HostScan, i: nat, s: string, k: nat)
    requires k < |s|
    ensures HostRun(h, i, s[..k + 1]) == HostChar(HostRun(h, i, s[..k]), s[k], i + k)
  {
    hide HostChar;
    assert s[..k + 1][..k] == s[..k];
  }

  lemma HostDeadEnds(h: HostScan, i: nat, s: string, k: nat)
    requires k <= |s| && HostRun(h, i, s[..k]).state == HostDead
    ensures HostRun(h, i, s) == HostRun(h, i, s[..k])
  {
    hide HostRun;
    assert s == s[..k] + s[k..];
    HostRunConcat(h, i, s[..k], s[k..]);
    HostDeadIsFinal(HostRun(h, i, s[..k]), i + k, s[k..]);
  }

  lemma RunNothing(sc: Scan, i: nat)
    ensures Run(sc, i, []) == sc
  {
  }

  lemma RunNext(sc: Scan, i: nat, s: string, k: nat)
    requires k < |s|
    ensures Run(sc, i, s[..k + 1]) == ScanChar(Run(sc, i, s[..k]), s[k], i + k)
  {
    hide ScanChar;
    assert s[..k + 1][..k] == s[..k];
  }

  lemma DeadEnds(sc: Scan, i: nat, s: string, k: nat)
    requires k <= |s| && Run(sc, i, s[..k]).state == Dead
    ensures Run(sc, i, s) == Run(sc, i, s[..k])
  {
    hide Run;
    assert s == s[..k] + s[k..];
    RunConcat(sc, i, s[..k], s[k..]);
    DeadIsFinal(Run(sc, i, s[..k]), i + k, s[k..]);
  }

  // ----- runs over one field -----

  /** Characters that keep the automaton in one state extend the field of that state, or begin it. */
  lemma {:induction false} RunField(sc: Scan, i: nat, s: string, st: State, uf: Field)
    requires s != [] && FieldOf(st) == Some(uf) && st != ServerWithAt
    requires sc.last == Some(uf) ==> Get(sc.f, uf).Some?
    requires ParseUrlChar(sc.state, s[0]) == st
    requires forall k :: 0 < k < |s| ==> ParseUrlChar(st, s[k]) == st
    ensures var was := if sc.last == Some(uf) then Get(sc.f, uf).value else Span(i, 0);
            Run(sc, i, s) == Scan(st, Some(uf), sc.foundAt, Set(sc.f, uf, Span(was.off, Wrapped(was.len + |s|))))
  {
    hide ParseUrlChar, Set, Get, Wrapped;
    var s' := s[..|s| - 1];
    var was := if sc.last == Some(uf) then Get(sc.f, uf).value else Span(i, 0);
    WrappedFacts(was.len + |s'|);
    if s' == [] {
      RunNothing(sc, i);
    } else {
      RunField(sc, i, s', st, uf);
      SetGet(sc.f, uf, Span(was.off, Wrapped(was.len + |s'|)));
    }
  }

  lemma RunDelimiter(sc: Scan, i: nat, c: char)
    requires FieldOf(ParseUrlChar(sc.state, c)).None?
    ensures Run(sc, i, [c]) == sc.(state := ParseUrlChar(sc.state, c))
  {
    hide ParseUrlChar;
    RunNothing(sc, i);
  }

  lemma {:induction false} HostRunName(h: HostScan, i: nat, s: string)
    requires s != [] && h.state == HostStart && h.host.len == 0
    requires forall k :: 0 <= k < |s| ==> IsHostChar(s[k])
    ensures HostRun(h, i, s) == h.(state := Host, host := Span(i, Wrapped(|s|)))
  {
    hide Wrapped;
    var s' := s[..|s| - 1];
    WrappedFacts(|s'|);
    if s' == [] {
      HostRunNothing(h, i);
    } else {
      HostRunName(h, i, s');
    }
  }

  lemma UserinfoGoesOn(c: char)
    requires IsUserinfoChar(c)
    ensures ParseUserinfoChar(c) == Userinfo
  {
  }

  lemma {:induction false} HostRunUserinfo(h: HostScan, i: nat, s: string)
    requires s != [] && h.state == UserinfoStart
    requires forall k :: 0 <= k < |s| ==> IsUserinfoChar(s[k])
    ensures HostRun(h, i, s) == h.(state := Userinfo, userinfo := Some(Span(i, Wrapped(|s|))))
  {
    hide Wrapped, ParseUserinfoChar, IsUserinfoChar;
    var s' := s[..|s| - 1];
    assert IsUserinfoChar(s[|s| - 1]);
    UserinfoGoesOn(s[|s| - 1]);
    WrappedFacts(|s'|);
    if s' == [] {
      HostRunNothing(h, i);
    } else {
      HostRunUserinfo(h, i, s');
    }
  }

  lemma {:induction false} HostRunPort(h: HostScan, i: nat, s: string)
    requires s != [] && h.state == PortStart
    requires forall k :: 0 <= k < |s| ==> IsNum(s[k])
    ensures HostRun(h, i, s) == h.(state := Port, port := Some(Span(i, Wrapped(|s|))))
  {
    hide Wrapped, IsNum;
    var s' := s[..|s| - 1];
    WrappedFacts(|s'|);
    if s' == [] {
      HostRunNothing(h, i);
    } else {
      HostRunPort(h, i, s');
    }
  }

  lemma HostRunChar(h: HostScan, i: nat, c: char)
    ensures HostRun(h, i, [c]) == HostChar(h, c, i)
  {
    hide HostChar;
    HostRunNothing(h, i);
  }
}
