/**
 * Which texts the URL automaton reads to their end (src/ksi/http_parser.c:216-362), as a grammar over characters that
 * are written out.
 */
module UrlGrammar {
  import opened Common
  import opened UriCharacters
  import opened UrlAutomata

  // ----- the grammar -----

  predicate LegalScheme(s: string) { s != "" && Letter(s[0]) && forall k :: 0 <= k < |s| ==> SchemeChar(s[k]) }

  predicate LegalPath(s: string) { forall k :: 0 <= k < |s| ==> PathChar(s[k]) }

  predicate LegalQuery(s: string) { forall k :: 0 <= k < |s| ==> PathChar(s[k]) || s[k] == '?' }

  predicate LegalFragment(s: string) { forall k :: 0 <= k < |s| ==> PathChar(s[k]) || s[k] == '?' || s[k] == '#' }

  predicate AuthorityChar(c: char) { LoginChar(c) || c == '[' || c == ']' || c == '@' }

  /** What may stand between "://" and the path, possibly nothing; two '@' in a row are refused. */
  predicate OpenAuthority(s: string) {
    && (forall k :: 0 <= k < |s| ==> AuthorityChar(s[k]))
    && (forall k :: 0 < k < |s| ==> !(s[k - 1] == '@' && s[k] == '@'))
  }

  predicate HeadCut(s: string, a: nat) {
    && a + 3 <= |s| && LegalScheme(s[..a])
    && s[a] == ':' && s[a + 1] == '/' && s[a + 2] == '/' && OpenAuthority(s[a + 3..])
  }

  /** scheme "://" authority */
  predicate IsHead(s: string) { exists a: nat :: a < |s| && HeadCut(s, a) }

  predicate PathCut(s: string, k: nat) {
    && k < |s| && (if k == 0 then s[0] == '/' || s[0] == '*' else s[k] == '/' && IsHead(s[..k]))
    && LegalPath(s[k..])
  }

  /** The head and a path, or a path alone, which may also begin with '*'. */
  predicate IsPathText(s: string) { exists k: nat :: k < |s| && PathCut(s, k) }

  predicate QueryCut(s: string, k: nat) {
    k < |s| && s[k] == '?' && (IsPathText(s[..k]) || IsHead(s[..k])) && LegalQuery(s[k + 1..])
  }

  predicate IsQueryText(s: string) { exists k: nat :: k < |s| && QueryCut(s, k) }

  predicate FragmentCut(s: string, k: nat) {
    k < |s| && s[k] == '#' && (IsPathText(s[..k]) || IsQueryText(s[..k])) && LegalFragment(s[k + 1..])
  }

  /** A fragment needs a path or a query in front of it. */
  predicate IsFragmentText(s: string) { exists k: nat :: k < |s| && FragmentCut(s, k) }

  /** A text that ends before its authority begins. */
  predicate IsBeginning(s: string) {
    || s == "" || LegalScheme(s)
    || (|s| >= 2 && s[|s| - 1] == ':' && LegalScheme(s[..|s| - 1]))
    || (|s| >= 3 && s[|s| - 2] == ':' && s[|s| - 1] == '/' && LegalScheme(s[..|s| - 2]))
  }

  predicate IsReadable(s: string) {
    IsBeginning(s) || IsHead(s) || IsPathText(s) || IsQueryText(s) || IsFragmentText(s)
  }

  // ----- what a state says about the text read -----

  ghost predicate InHead(s: string, a: nat, at: bool) {
    HeadCut(s, a) && a + 3 < |s| && (s[|s| - 1] == '@' <==> at)
  }

  ghost predicate ReadUrl(st: State, s: string) {
    match st
    case Dead => true
    case SpacesBeforeUrl => s == ""
    case Schema => LegalScheme(s)
    case SchemaSlash => |s| >= 2 && s[|s| - 1] == ':' && LegalScheme(s[..|s| - 1])
    case SchemaSlashSlash => |s| >= 3 && s[|s| - 2] == ':' && s[|s| - 1] == '/' && LegalScheme(s[..|s| - 2])
    case ServerStart => |s| >= 4 && HeadCut(s, |s| - 3)
    case Server => exists a: nat :: a < |s| && InHead(s, a, false)
    case ServerWithAt => exists a: nat :: a < |s| && InHead(s, a, true)
    case Path => IsPathText(s)
    case QueryStart => IsQueryText(s)
    case Query => IsQueryText(s)
    case FragmentStart => IsFragmentText(s)
    case Fragment => IsFragmentText(s)
  }

  lemma ReadSchemeChar(st: State, s: string, c: char)
    requires ReadUrl(st, s) && (st == SpacesBeforeUrl || st == Schema || st == SchemaSlash || st == SchemaSlashSlash)
    ensures ReadUrl(ParseUrlChar(st, c), s + [c])
  {
    SameClasses();
    hide Letter, SchemeChar, PathChar, LoginChar, IsAlpha, IsSchemeChar, IsUrlChar, IsUserinfoChar;
    hide IsHead, IsQueryText, IsFragmentText;
    var t := s + [c];
    assert t[..|s|] == s;
    match st
    case SpacesBeforeUrl =>
      LetterInScheme(c);
      if ParseUrlChar(st, c) == Path {
        assert t[0..] == [c];
        SlashAndStar();
        assert PathCut(t, 0);
      }
    case Schema =>
    case SchemaSlash => assert t[..|t| - 2] == s[..|s| - 1];
    case SchemaSlashSlash =>
      assert t[..|t| - 3] == s[..|s| - 2];
      assert t[|t| - 3 + 3..] == "";
  }

  lemma LetterInScheme(c: char)
    ensures Letter(c) ==> SchemeChar(c)
  {
  }

  lemma SlashAndStar()
    ensures PathChar('/') && PathChar('*')
  {
  }

  lemma HeadGrows(s: string, a: nat, c: char)
    requires HeadCut(s, a) && AuthorityChar(c) && !(a + 3 < |s| && s[|s| - 1] == '@' && c == '@')
    ensures HeadCut(s + [c], a)
  {
    hide AuthorityChar, LegalScheme;
    var t := s + [c];
    assert t[..a] == s[..a] && t[a + 3..] == s[a + 3..] + [c];
  }

  lemma ServerChars(c: char)
    ensures ParseServerChar(c) == Path <==> c == '/'
    ensures ParseServerChar(c) == QueryStart <==> c == '?'
    ensures ParseServerChar(c) == ServerWithAt <==> c == '@'
    ensures ParseServerChar(c) == Server <==> AuthorityChar(c) && c != '@'
    ensures ParseServerChar(c) == Dead || AuthorityChar(c) || c == '/' || c == '?'
    ensures ParseServerChar(c) == Dead <==> !AuthorityChar(c) && c != '/' && c != '?'
  {
  }

  /** What follows a head. */
  lemma ReadHeadChar(s: string, a: nat, c: char)
    requires HeadCut(s, a) && a < |s| && !(a + 3 < |s| && s[|s| - 1] == '@' && c == '@')
    ensures ReadUrl(ParseServerChar(c), s + [c])
  {
    ServerChars(c);
    hide AuthorityChar, LegalScheme, ParseServerChar, OpenAuthority, IsFragmentText, PathChar;
    var t := s + [c];
    assert t[..|s|] == s;
    if AuthorityChar(c) {
      HeadGrows(s, a, c);
      assert InHead(t, a, c == '@');
    } else if c == '/' {
      SlashAndStar();
      assert t[|s|..] == [c];
      assert PathCut(t, |s|);
    } else if c == '?' {
      assert t[|s| + 1..] == "";
      assert QueryCut(t, |s|);
    }
  }

  lemma ReadServerChar(st: State, s: string, c: char)
    requires ReadUrl(st, s) && (st == ServerStart || st == Server || st == ServerWithAt)
    ensures ReadUrl(ParseUrlChar(st, c), s + [c])
  {
    hide HeadCut, ParseServerChar, IsPathText, IsQueryText, IsFragmentText;
    BlankIsDead(st, c);
    if ParseUrlChar(st, c) != Dead {
      if st == ServerStart {
        ReadHeadChar(s, |s| - 3, c);
      } else {
        var a: nat :| a < |s| && InHead(s, a, st == ServerWithAt);
        ReadHeadChar(s, a, c);
      }
    }
  }

  lemma BlankIsDead(st: State, c: char)
    requires st == ServerStart || st == Server || st == ServerWithAt
    ensures || ParseUrlChar(st, c) == Dead
            || (ParseUrlChar(st, c) == ParseServerChar(c) && !(st == ServerWithAt && c == '@'))
  {
  }

  lemma PathGrows(s: string, c: char)
    requires IsPathText(s) && PathChar(c)
    ensures IsPathText(s + [c])
  {
    hide IsHead, PathChar;
    var k: nat :| k < |s| && PathCut(s, k);
    var t := s + [c];
    assert t[..k] == s[..k] && t[k..] == s[k..] + [c];
    assert PathCut(t, k);
  }

  lemma QueryGrows(s: string, c: char)
    requires IsQueryText(s) && (PathChar(c) || c == '?')
    ensures IsQueryText(s + [c])
  {
    hide IsHead, IsPathText, PathChar;
    var k: nat :| k < |s| && QueryCut(s, k);
    var t := s + [c];
    assert t[..k] == s[..k] && t[k + 1..] == s[k + 1..] + [c];
    assert QueryCut(t, k);
  }

  lemma FragmentGrows(s: string, c: char)
    requires IsFragmentText(s) && (PathChar(c) || c == '?' || c == '#')
    ensures IsFragmentText(s + [c])
  {
    hide IsQueryText, IsPathText, PathChar;
    var k: nat :| k < |s| && FragmentCut(s, k);
    var t := s + [c];
    assert t[..k] == s[..k] && t[k + 1..] == s[k + 1..] + [c];
    assert FragmentCut(t, k);
  }

  lemma QueryBegins(s: string)
    requires IsPathText(s)
    ensures IsQueryText(s + ['?'])
  {
    hide IsPathText, IsHead;
    var t := s + ['?'];
    assert t[..|s|] == s && t[|s| + 1..] == "";
    assert QueryCut(t, |s|);
  }

  lemma FragmentBegins(s: string)
    requires IsPathText(s) || IsQueryText(s)
    ensures IsFragmentText(s + ['#'])
  {
    hide IsPathText, IsQueryText;
    var t := s + ['#'];
    assert t[..|s|] == s && t[|s| + 1..] == "";
    assert FragmentCut(t, |s|);
  }

  lemma ReadRestChar(st: State, s: string, c: char)
    requires ReadUrl(st, s)
    requires st == Dead || st == Path || st == QueryStart || st == Query || st == FragmentStart || st == Fragment
    ensures ReadUrl(ParseUrlChar(st, c), s + [c])
  {
    SameClasses();
    hide PathChar, IsUrlChar, IsPathText, IsQueryText, IsFragmentText;
    if st == Path {
      QueryBegins(s);
      FragmentBegins(s);
      if PathChar(c) {
        PathGrows(s, c);
      }
    } else if st == QueryStart || st == Query {
      FragmentBegins(s);
      if PathChar(c) || c == '?' {
        QueryGrows(s, c);
      }
    } else if st != Dead && (PathChar(c) || c == '?' || c == '#') {
      FragmentGrows(s, c);
    }
  }

  lemma {:induction false} ReadUrlText(s: string)
    ensures ReadUrl(Run(START, 0, s).state, s)
  {
    hide ParseUrlChar;
    if s != [] {
      var s', c := s[..|s| - 1], s[|s| - 1];
      ReadUrlText(s');
      var st := Run(START, 0, s').state;
      assert s' + [c] == s;
      if st == SpacesBeforeUrl || st == Schema || st == SchemaSlash || st == SchemaSlashSlash {
        ReadSchemeChar(st, s', c);
      } else if st == ServerStart || st == Server || st == ServerWithAt {
        ReadServerChar(st, s', c);
      } else {
        ReadRestChar(st, s', c);
      }
    }
  }

  // ----- every text of the grammar is read -----

  lemma {:induction false} SchemeIsRead(s: string)
    requires LegalScheme(s)
    ensures Run(START, 0, s).state == Schema
  {
    SameClasses();
    hide Letter, IsAlpha, SchemeChar, IsSchemeChar;
    var s', c := s[..|s| - 1], s[|s| - 1];
    NoBlank(c);
    if s' == "" {
      RunNothing(START, 0);
    } else {
      SchemeIsRead(s');
    }
  }

  lemma NoBlank(c: char)
    ensures SchemeChar(c) || AuthorityChar(c) || PathChar(c) || c == '?' || c == '#' ==>
              c != ' ' && c != '\r' && c != '\n'
    ensures Letter(c) ==> c != '/' && c != '*'
  {
  }

  lemma {:induction false} AuthorityIsRead(sc: Scan, i: nat, s: string)
    requires sc.state == ServerStart && OpenAuthority(s)
    ensures Run(sc, i, s).state ==
            if s == "" then ServerStart else if s[|s| - 1] == '@' then ServerWithAt else Server
  {
    hide AuthorityChar, ParseServerChar;
    if s != "" {
      var s', c := s[..|s| - 1], s[|s| - 1];
      AuthorityIsRead(sc, i, s');
      ServerChars(c);
      NoBlank(c);
      assert AuthorityChar(c);
      assert s' != "" ==> s'[|s'| - 1] == s[|s| - 2];
    }
  }

  lemma HeadIsRead(s: string, a: nat)
    requires HeadCut(s, a)
    ensures var st := Run(START, 0, s).state; st == ServerStart || st == Server || st == ServerWithAt
  {
    hide Run, LegalScheme, OpenAuthority;
    var scheme, authority := s[..a], s[a + 3..];
    assert s == scheme + "://" + authority;
    SchemeIsRead(scheme);
    var sc := Run(START, 0, scheme);
    RootIsRead(sc, a);
    RunConcat(START, 0, scheme, "://");
    RunConcat(START, 0, scheme + "://", authority);
    AuthorityIsRead(Run(sc, a, "://"), a + 3, authority);
  }

  lemma RootIsRead(sc: Scan, i: nat)
    requires sc.state == Schema
    ensures Run(sc, i, ":").state == SchemaSlash && Run(sc, i, ":/").state == SchemaSlashSlash
    ensures Run(sc, i, "://") == sc.(state := ServerStart)
  {
    hide Run;
    RunDelimiter(sc, i, ':');
    var sc1 := sc.(state := SchemaSlash);
    RunDelimiter(sc1, i + 1, '/');
    var sc2 := sc.(state := SchemaSlashSlash);
    RunDelimiter(sc2, i + 2, '/');
    assert ":/" == [':'] + ['/'];
    assert "://" == ":/" + ['/'];
    RunConcat(sc, i, [':'], ['/']);
    RunConcat(sc, i, ":/", ['/']);
  }

  /** Characters of a path, a query or a fragment keep the automaton there. */
  lemma {:induction false} RestIsRead(sc: Scan, i: nat, s: string)
    ensures sc.state == Path && LegalPath(s) ==> Run(sc, i, s).state == Path
    ensures sc.state == QueryStart && LegalQuery(s) ==>
              Run(sc, i, s).state == QueryStart || Run(sc, i, s).state == Query
    ensures sc.state == FragmentStart && LegalFragment(s) ==>
              Run(sc, i, s).state == FragmentStart || Run(sc, i, s).state == Fragment
  {
    SameClasses();
    hide PathChar, IsUrlChar;
    if s != "" {
      RestIsRead(sc, i, s[..|s| - 1]);
      NoBlank(s[|s| - 1]);
    }
  }

  lemma AfterHead(st: State)
    requires st == ServerStart || st == Server || st == ServerWithAt
    ensures ParseUrlChar(st, '/') == Path && ParseUrlChar(st, '?') == QueryStart
    ensures ParseUrlChar(SpacesBeforeUrl, '/') == Path && ParseUrlChar(SpacesBeforeUrl, '*') == Path
    ensures ParseUrlChar(Path, '?') == QueryStart && ParseUrlChar(Path, '#') == FragmentStart
    ensures ParseUrlChar(QueryStart, '#') == FragmentStart && ParseUrlChar(Query, '#') == FragmentStart
  {
  }

  /** One character and the rest behind a text. */
  lemma RunFrom(s: string, k: nat)
    requires k < |s|
    ensures Run(START, 0, s) == Run(ScanChar(Run(START, 0, s[..k]), s[k], k), k + 1, s[k + 1..])
    ensures ScanChar(Run(START, 0, s[..k]), s[k], k).state == ParseUrlChar(Run(START, 0, s[..k]).state, s[k])
  {
    hide Run, ParseUrlChar;
    RunNext(START, 0, s, k);
    assert s == s[..k + 1] + s[k + 1..];
    RunConcat(START, 0, s[..k + 1], s[k + 1..]);
  }

  lemma PathIsRead(s: string)
    requires IsPathText(s)
    ensures Run(START, 0, s).state == Path
  {
    hide Run, ParseUrlChar, ScanChar, PathChar;
    var k: nat :| k < |s| && PathCut(s, k);
    RunFrom(s, k);
    if k == 0 {
      assert s[..0] == "";
      RunNothing(START, 0);
      AfterHead(ServerStart);
    } else {
      var a: nat :| a < |s[..k]| && HeadCut(s[..k], a);
      HeadIsRead(s[..k], a);
      AfterHead(Run(START, 0, s[..k]).state);
    }
    assert s[k + 1..] == s[k..][1..];
    RestIsRead(ScanChar(Run(START, 0, s[..k]), s[k], k), k + 1, s[k + 1..]);
  }

  lemma QueryIsRead(s: string)
    requires IsQueryText(s)
    ensures var st := Run(START, 0, s).state; st == QueryStart || st == Query
  {
    hide Run, ParseUrlChar, ScanChar, PathChar, IsPathText, HeadCut;
    var k: nat :| k < |s| && QueryCut(s, k);
    RunFrom(s, k);
    if IsPathText(s[..k]) {
      PathIsRead(s[..k]);
      AfterHead(ServerStart);
    } else {
      var a: nat :| a < |s[..k]| && HeadCut(s[..k], a);
      HeadIsRead(s[..k], a);
      AfterHead(Run(START, 0, s[..k]).state);
    }
    RestIsRead(ScanChar(Run(START, 0, s[..k]), s[k], k), k + 1, s[k + 1..]);
  }

  lemma FragmentIsRead(s: string)
    requires IsFragmentText(s)
    ensures var st := Run(START, 0, s).state; st == FragmentStart || st == Fragment
  {
    hide Run, ParseUrlChar, ScanChar, PathChar, IsPathText, IsQueryText;
    var k: nat :| k < |s| && FragmentCut(s, k);
    RunFrom(s, k);
    AfterHead(ServerStart);
    if IsPathText(s[..k]) {
      PathIsRead(s[..k]);
    } else {
      QueryIsRead(s[..k]);
    }
    RestIsRead(ScanChar(Run(START, 0, s[..k]), s[k], k), k + 1, s[k + 1..]);
  }

  lemma BeginningIsRead(s: string)
    requires IsBeginning(s)
    ensures Run(START, 0, s).state != Dead
  {
    hide Run, LegalScheme;
    if s == "" {
      RunNothing(START, 0);
    } else if LegalScheme(s) {
      SchemeIsRead(s);
    } else {
      var a := if s[|s| - 1] == ':' then |s| - 1 else |s| - 2;
      assert s == s[..a] + s[a..] && (s[a..] == ":" || s[a..] == ":/");
      SchemeIsRead(s[..a]);
      RootIsRead(Run(START, 0, s[..a]), a);
      RunConcat(START, 0, s[..a], s[a..]);
    }
  }

  // ----- the main result -----

  /** The URL automaton reads a text to its end if and only if it is in the grammar. */
  lemma ReadableIff(s: string)
    ensures Run(START, 0, s).state != Dead <==> IsReadable(s)
  {
    hide Run, LegalScheme, IsPathText, IsQueryText, IsFragmentText, HeadCut;
    ReadUrlText(s);
    if IsBeginning(s) {
      BeginningIsRead(s);
    }
    if IsHead(s) {
      var a: nat :| a < |s| && HeadCut(s, a);
      HeadIsRead(s, a);
    }
    if IsPathText(s) {
      PathIsRead(s);
    }
    if IsQueryText(s) {
      QueryIsRead(s);
    }
    if IsFragmentText(s) {
      FragmentIsRead(s);
    }
  }
}
