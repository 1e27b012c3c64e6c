/**
 * Which authorities http_parse_host accepts (src/ksi/http_parser.c:364-500), as a grammar:
 * [ userinfo* '@' ] ( hostchar+ | '[' v6char+ ']' ) [ ':' digit+ ].
 */
module HostGrammar {
  import opened Common
  import opened UriCharacters
  import opened UrlAutomata

  // ----- the grammar -----

  predicate IsName(s: string) { s != "" && forall k :: 0 <= k < |s| ==> NameChar(s[k]) }

  predicate IsBracketed(s: string) {
    |s| >= 3 && s[0] == '[' && s[|s| - 1] == ']' && forall k :: 1 <= k < |s| - 1 ==> AddressChar(s[k])
  }

  predicate IsHost(s: string) { IsName(s) || IsBracketed(s) }

  /** The first k characters are the host; what follows, if anything, is a port. */
  predicate ServerCut(s: string, k: nat) {
    && k <= |s| && IsHost(s[..k])
    && (k < |s| ==> s[k] == ':' && k + 1 < |s| && forall j :: k < j < |s| ==> DigitChar(s[j]))
  }

  predicate IsServer(s: string) { exists k: nat :: k <= |s| && ServerCut(s, k) }

  /** The first k characters are the user information, and '@' follows. */
  predicate LoginCut(s: string, k: nat) { k < |s| && s[k] == '@' && forall j :: 0 <= j < k ==> LoginChar(s[j]) }

  predicate IsServerWithLogin(s: string) { exists k: nat :: k < |s| && LoginCut(s, k) && IsServer(s[k + 1..]) }

  predicate IsAuthority(s: string) { IsServer(s) || IsServerWithLogin(s) }

  /** '@' occurs in an authority with user information, and in no other. */
  lemma AtMeansLogin(s: string)
    requires IsAuthority(s)
    ensures IsServerWithLogin(s) <==> '@' in s
    ensures IsServer(s) <==> '@' !in s
  {
    if IsServer(s) {
      var k: nat :| k <= |s| && ServerCut(s, k);
      forall j | 0 <= j < |s|
        ensures s[j] != '@'
      {
        assert j < k ==> s[..k][j] == s[j];
      }
    }
  }

  // ----- what a state says about the text read -----

  /** From HostStart. */
  ghost predicate ReadServer(st: HostState, s: string) {
    match st
    case HostStart => s == ""
    case V6Start => s == "["
    case Host => IsName(s)
    case V6 => |s| >= 2 && s[0] == '[' && forall k :: 1 <= k < |s| ==> AddressChar(s[k])
    case V6End => IsBracketed(s)
    case PortStart => s != "" && s[|s| - 1] == ':' && IsHost(s[..|s| - 1])
    case Port => exists k: nat :: k < |s| && ServerCut(s, k)
    case HostDead => true
    case _ => false
  }

  lemma ReadServerChar(st: HostState, s: string, c: char)
    requires ReadServer(st, s)
    ensures ReadServer(ParseHostChar(st, c), s + [c])
  {
    SameClasses();
    hide NameChar, IsHostChar, IsHex, IsNum, AddressChar, LoginChar, IsUserinfoChar, DigitChar;
    var t := s + [c];
    assert t[..|s|] == s;
    match ParseHostChar(st, c)
    case Port =>
      if st == PortStart {
        assert t[..|s| - 1] == s[..|s| - 1];
        assert ServerCut(t, |s| - 1);
      } else {
        var k: nat :| k < |s| && ServerCut(s, k);
        assert t[..k] == s[..k];
        assert ServerCut(t, k);
      }
    case _ =>
  }

  lemma {:induction false} ReadServerText(h: HostScan, i: nat, s: string)
    requires h.state == HostStart
    ensures ReadServer(HostRun(h, i, s).state, s)
  {
    hide ParseHostChar, ReadServer;
    if s == [] {
      assert ReadServer(HostStart, "") by { NothingRead(); }
    } else {
      var s', c := s[..|s| - 1], s[|s| - 1];
      ReadServerText(h, i, s');
      ReadServerChar(HostRun(h, i, s').state, s', c);
      assert s' + [c] == s;
    }
  }

  lemma NothingRead()
    ensures ReadServer(HostStart, "")
  {
  }

  /** From UserinfoStart. */
  ghost predicate ReadLogin(st: HostState, s: string) {
    match st
    case UserinfoStart => s == ""
    case Userinfo => s != "" && forall k :: 0 <= k < |s| ==> LoginChar(s[k])
    case HostDead => true
    case _ => exists k: nat :: k < |s| && LoginCut(s, k) && ReadServer(st, s[k + 1..])
  }

  lemma ReadLoginChar(st: HostState, s: string, c: char)
    requires ReadLogin(st, s)
    ensures ReadLogin(ParseHostChar(st, c), s + [c])
  {
    SameClasses();
    hide NameChar, IsHostChar, IsHex, AddressChar, LoginChar, IsUserinfoChar, ReadServer;
    var t := s + [c];
    if st == UserinfoStart || st == Userinfo {
      if c == '@' {
        assert t[|s| + 1..] == "";
        NothingRead();
        assert LoginCut(t, |s|);
      }
    } else if st != HostDead {
      var k: nat :| k < |s| && LoginCut(s, k) && ReadServer(st, s[k + 1..]);
      ReadServerChar(st, s[k + 1..], c);
      assert t[k + 1..] == s[k + 1..] + [c];
      assert LoginCut(t, k);
    }
  }

  lemma {:induction false} ReadLoginText(h: HostScan, i: nat, s: string)
    requires h.state == UserinfoStart
    ensures ReadLogin(HostRun(h, i, s).state, s)
  {
    hide ParseHostChar, ReadLogin;
    if s == [] {
      assert ReadLogin(UserinfoStart, "") by { NoLoginRead(); }
    } else {
      var s', c := s[..|s| - 1], s[|s| - 1];
      ReadLoginText(h, i, s');
      ReadLoginChar(HostRun(h, i, s').state, s', c);
      assert s' + [c] == s;
    }
  }

  lemma NoLoginRead()
    ensures ReadLogin(UserinfoStart, "")
  {
  }

  // ----- what the loop makes of an accepted text -----

  lemma {:induction false} HostRunV6(h: HostScan, i: nat, s: string)
    requires s != [] && h.state == V6Start && h.host.len == 0
    requires forall k :: 0 <= k < |s| ==> AddressChar(s[k])
    ensures HostRun(h, i, s) == h.(state := V6, host := Span(i, Wrapped(|s|)))
  {
    hide IsHex, Wrapped;
    var s' := s[..|s| - 1];
    WrappedFacts(|s'|);
    V6GoesOn(s[|s| - 1]);
    if s' == [] {
      HostRunNothing(h, i);
    } else {
      HostRunV6(h, i, s');
    }
  }

  lemma V6GoesOn(c: char)
    requires AddressChar(c)
    ensures ParseHostChar(V6Start, c) == V6 && ParseHostChar(V6, c) == V6
  {
  }

  /** The fields of a host, without the brackets. */
  lemma RunHost(h: HostScan, i: nat, s: string)
    requires IsHost(s) && h.state == HostStart && h.host.len == 0
    ensures HostRun(h, i, s) == if s[0] == '[' then h.(state := V6End, host := Span(i + 1, Wrapped(|s| - 2)))
                                else h.(state := Host, host := Span(i, Wrapped(|s|)))
  {
    hide HostRun, Wrapped;
    if s[0] != '[' {
      HostRunName(h, i, s);
    } else {
      var inner := s[1..|s| - 1];
      assert s == ['['] + inner + [']'];
      HostRunChar(h, i, '[');
      HostRunConcat(h, i, ['['], inner);
      var h1 := h.(state := V6Start);
      assert HostRun(h, i, ['[']) == h1;
      HostRunV6(h1, i + 1, inner);
      HostRunConcat(h, i, ['['] + inner, [']']);
      HostRunChar(h1.(state := V6, host := Span(i + 1, Wrapped(|inner|))), i + 1 + |inner|, ']');
    }
  }

  /** The fields of a server: host and port. */
  lemma RunServer(h: HostScan, i: nat, s: string, k: nat)
    requires ServerCut(s, k) && h.state == HostStart && h.host.len == 0
    ensures var host := if s[0] == '[' then Span(i + 1, Wrapped(k - 2)) else Span(i, Wrapped(k));
            && HostMayEnd(HostRun(h, i, s).state)
            && HostRun(h, i, s).host == host && HostRun(h, i, s).userinfo == h.userinfo
            && HostRun(h, i, s).port == if k < |s| then Some(Span(i + k + 1, Wrapped(|s| - k - 1))) else h.port
  {
    hide HostRun, IsHost, Wrapped;
    RunHost(h, i, s[..k]);
    var h1 := HostRun(h, i, s[..k]);
    HostHasStart(s[..k]);
    if k < |s| {
      var digits := s[k + 1..];
      assert s == s[..k] + [':'] + digits;
      HostRunConcat(h, i, s[..k], [':']);
      HostRunChar(h1, i + k, ':');
      HostRunConcat(h, i, s[..k] + [':'], digits);
      HostRunPort(h1.(state := PortStart), i + k + 1, digits);
    } else {
      assert s[..k] == s;
    }
  }

  lemma HostHasStart(s: string)
    requires IsHost(s)
    ensures s != ""
  {
  }

  /** The loop behind the '@' starts like one without user information. */
  lemma RunLogin(h: HostScan, i: nat, s: string, k: nat)
    requires LoginCut(s, k) && h.state == UserinfoStart
    ensures HostRun(h, i, s[..k + 1]) ==
            h.(state := HostStart, userinfo := if k > 0 then Some(Span(i, Wrapped(k))) else h.userinfo)
  {
    hide HostRun, LoginChar, Wrapped;
    assert s[..k + 1] == s[..k] + ['@'];
    HostRunConcat(h, i, s[..k], ['@']);
    if k > 0 {
      SameClasses();
      HostRunUserinfo(h, i, s[..k]);
    } else {
      HostRunNothing(h, i);
    }
    HostRunChar(HostRun(h, i, s[..k]), i + k, '@');
  }

  // ----- the main results -----

  /** The states in which the host text may end. */
  predicate HostMayEnd(s: HostState) { s.Host? || s.V6End? || s.Port? }

  /** Without user information the loop ends well if and only if the text is a server. */
  lemma ServerIffAccepted(h: HostScan, i: nat, s: string)
    requires h.state == HostStart && h.host.len == 0
    ensures HostMayEnd(HostRun(h, i, s).state) <==> IsServer(s)
  {
    hide HostRun, IsHost;
    ReadServerText(h, i, s);
    if IsServer(s) {
      var k: nat :| k <= |s| && ServerCut(s, k);
      RunServer(h, i, s, k);
    }
    WholeIsHost(s);
  }

  lemma WholeIsHost(s: string)
    ensures IsName(s) || IsBracketed(s) ==> ServerCut(s, |s|)
  {
    assert s[..|s|] == s;
  }

  /** With user information it ends well if and only if the text is a login and a server. */
  lemma LoginIffAccepted(h: HostScan, i: nat, s: string)
    requires h.state == UserinfoStart && h.host.len == 0
    ensures HostMayEnd(HostRun(h, i, s).state) <==> IsServerWithLogin(s)
  {
    hide HostRun, ReadServer, IsServer;
    ReadLoginText(h, i, s);
    var st := HostRun(h, i, s).state;
    if HostMayEnd(st) {
      var k: nat :| k < |s| && LoginCut(s, k) && ReadServer(st, s[k + 1..]);
      ReadMeansServer(st, s[k + 1..]);
    }
    if IsServerWithLogin(s) {
      var k: nat :| k < |s| && LoginCut(s, k) && IsServer(s[k + 1..]);
      RunLogin(h, i, s, k);
      var h1 := HostRun(h, i, s[..k + 1]);
      assert s == s[..k + 1] + s[k + 1..];
      HostRunConcat(h, i, s[..k + 1], s[k + 1..]);
      ServerIffAccepted(h1, i + k + 1, s[k + 1..]);
    }
  }

  lemma ReadMeansServer(st: HostState, s: string)
    requires ReadServer(st, s) && HostMayEnd(st)
    ensures IsServer(s)
  {
    WholeIsHost(s);
  }
}
