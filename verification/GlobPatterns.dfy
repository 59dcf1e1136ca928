/**
 * The trigger's glob-to-regex compiler, the meaning of the regular expressions it emits, and
 * a direct matcher for the globs themselves. Case folding is ASCII only.
 */
module GlobPatterns {
  // ---------------------------------------------------------------- regular expressions

  datatype Regex =
    | Lit(c: char)            // an escaped character, ignoring case
    | AnyChar                 // .
    | NotSlash                // [^/]
    | Cat(first: Regex, second: Regex)
    | Star(inner: Regex)
    | Opt(inner: Regex)

  function Lower(c: char): char {
    if 'A' <= c <= 'Z' then c + 32 as char else c
  }

  predicate SameChar(a: char, b: char) {
    Lower(a) == Lower(b)
  }

  /** Case is ignored for the letters of ASCII, and for nothing else. */
  lemma FoldsCase(a: char, b: char)
    ensures SameChar(a, b) <==>
            || a == b
            || ('A' <= a <= 'Z' && b as int == a as int + ('a' as int - 'A' as int))
            || ('A' <= b <= 'Z' && a as int == b as int + ('a' as int - 'A' as int))
  {
  }

  /** The whole of `s` matches `r`; a dot does not match a newline. */
  ghost predicate Matches(r: Regex, s: string)
    decreases r, |s|
  {
    match r
    case Lit(c) => |s| == 1 && SameChar(s[0], c)
    case AnyChar => |s| == 1 && s[0] != '\n'
    case NotSlash => |s| == 1 && s[0] != '/'
    case Cat(a, b) => exists k | 0 <= k <= |s| :: Matches(a, s[..k]) && Matches(b, s[k..])
    case Star(a) => s == "" || exists k | 1 <= k <= |s| :: Matches(a, s[..k]) && Matches(r, s[k..])
    case Opt(a) => s == "" || Matches(a, s)
  }

  /** The pieces of a compiled pattern match `s` one after the other, up to its end. */
  ghost predicate MatchesAll(rs: seq<Regex>, s: string) {
    if rs == [] then s == ""
    else exists k | 0 <= k <= |s| :: Matches(rs[0], s[..k]) && MatchesAll(rs[1..], s[k..])
  }

  // ---------------------------------------------------------------- the compiler

  const ANY_RUN := Star(AnyChar)                              // .*
  const SEGMENT := Star(NotSlash)                             // [^/]*
  const SUBDIRS := Opt(Cat(Star(AnyChar), Lit('/')))          // (?:.*/)?

  predicate StartsWith(s: string, prefix: string) {
    |prefix| <= |s| && s[..|prefix|] == prefix
  }

  /** What the compiler emits for a pattern, piece by piece. */
  function Pieces(pattern: string): seq<Regex> {
    if pattern == "" then []
    else if StartsWith(pattern, "**/") then [SUBDIRS] + Pieces(pattern[3..])
    else if StartsWith(pattern, "**") then [ANY_RUN] + Pieces(pattern[2..])
    else if pattern[0] == '*' then [SEGMENT] + Pieces(pattern[1..])
    else [Lit(pattern[0])] + Pieces(pattern[1..])
  }

  lemma PiecesSplit(out: seq<Regex>, r: Regex, rest: seq<Regex>)
    ensures (out + [r]) + rest == out + ([r] + rest)
  {
  }

  /** `_glob_regex`. */
  method CompileGlob(pattern: string) returns (out: seq<Regex>)
    ensures forall path: string :: MatchesAll(out, path) <==> Glob(pattern, path)
  {
    out := [];
    var i := 0;
    while i < |pattern|
      invariant i <= |pattern|
      invariant out + Pieces(pattern[i..]) == Pieces(pattern)
    {
      var rest := pattern[i..];
      if StartsWith(rest, "**/") {
        PiecesSplit(out, SUBDIRS, Pieces(rest[3..]));
        assert rest[3..] == pattern[i + 3..];
        out := out + [SUBDIRS];
        i := i + 3;
      } else if StartsWith(rest, "**") {
        PiecesSplit(out, ANY_RUN, Pieces(rest[2..]));
        assert rest[2..] == pattern[i + 2..];
        out := out + [ANY_RUN];
        i := i + 2;
      } else if pattern[i] == '*' {
        PiecesSplit(out, SEGMENT, Pieces(rest[1..]));
        assert rest[1..] == pattern[i + 1..];
        out := out + [SEGMENT];
        i := i + 1;
      } else {
        PiecesSplit(out, Lit(pattern[i]), Pieces(rest[1..]));
        assert rest[1..] == pattern[i + 1..];
        out := out + [Lit(pattern[i])];
        i := i + 1;
      }
    }
    assert Pieces(pattern[i..]) == [];
    assert out == Pieces(pattern);
    forall path: string ensures MatchesAll(out, path) <==> Glob(pattern, path) {
      CompiledMeansGlob(pattern, path);
    }
  }

  // ---------------------------------------------------------------- direct meaning of globs

  /**
   * A backtracking matcher: `*` eats characters other than a slash, `**` any but a newline,
   * and `**` followed by a slash stands for no directories or any run of them.
   */
  predicate Glob(p: string, s: string)
    decreases |p|, |s|, 1
  {
    if p == "" then s == ""
    else if StartsWith(p, "**/") then Glob(p[3..], s) || BelowSome(p, s)
    else if StartsWith(p, "**") then Glob(p[2..], s) || (s != "" && s[0] != '\n' && Glob(p, s[1..]))
    else if p[0] == '*' then Glob(p[1..], s) || (s != "" && s[0] != '/' && Glob(p, s[1..]))
    else s != "" && SameChar(s[0], p[0]) && Glob(p[1..], s[1..])
  }

  /** Some slash of `s` has a match of the rest of the pattern right behind it. */
  predicate BelowSome(p: string, s: string)
    requires StartsWith(p, "**/")
    decreases |p|, |s|, 0
  {
    s != "" && ((s[0] == '/' && Glob(p[3..], s[1..])) || (s[0] != '\n' && BelowSome(p, s[1..])))
  }

  // ---------------------------------------------------------------- what each piece matches

  lemma {:induction false} AnyRunMatches(s: string)
    ensures Matches(ANY_RUN, s) <==> '\n' !in s
    decreases |s|
  {
    if s != "" {
      AnyRunMatches(s[1..]);
      if Matches(ANY_RUN, s) {
        var k :| 1 <= k <= |s| && Matches(AnyChar, s[..k]) && Matches(ANY_RUN, s[k..]);
        assert s == [s[0]] + s[1..];
      }
      if '\n' !in s {
        assert Matches(AnyChar, s[..1]) && Matches(ANY_RUN, s[1..]);
      }
    }
  }

  lemma {:induction false} SegmentMatches(s: string)
    ensures Matches(SEGMENT, s) <==> '/' !in s
    decreases |s|
  {
    if s != "" {
      SegmentMatches(s[1..]);
      if Matches(SEGMENT, s) {
        var k :| 1 <= k <= |s| && Matches(NotSlash, s[..k]) && Matches(SEGMENT, s[k..]);
        assert s == [s[0]] + s[1..];
      }
      if '/' !in s {
        assert Matches(NotSlash, s[..1]) && Matches(SEGMENT, s[1..]);
      }
    }
  }

  lemma SubdirsMatches(s: string)
    ensures Matches(SUBDIRS, s) <==> s == "" || (s[|s| - 1] == '/' && '\n' !in s[..|s| - 1])
  {
    var r := Cat(Star(AnyChar), Lit('/'));
    if s != "" {
      var n := |s| - 1;
      if Matches(r, s) {
        var k :| 0 <= k <= |s| && Matches(ANY_RUN, s[..k]) && Matches(Lit('/'), s[k..]);
        AnyRunMatches(s[..k]);
        SlashHasNoCase(s[k]);
      }
      if s[n] == '/' && '\n' !in s[..n] {
        AnyRunMatches(s[..n]);
        assert Matches(ANY_RUN, s[..n]) && Matches(Lit('/'), s[n..]);
      }
    }
  }

  lemma SlashHasNoCase(c: char)
    ensures SameChar(c, '/') <==> c == '/'
  {
  }

  // ---------------------------------------------------------------- what the matcher does

  /** Some run of characters other than `c` is followed by a match of `q`. */
  ghost predicate RunThen(c: char, q: string, s: string) {
    exists k | 0 <= k <= |s| :: c !in s[..k] && Glob(q, s[k..])
  }

  /** Some slash, with no newline before it, is followed by a match of `q`. */
  ghost predicate SlashThen(q: string, s: string) {
    exists k | 0 <= k < |s| :: s[k] == '/' && '\n' !in s[..k] && Glob(q, s[k + 1..])
  }

  /** Cutting the first character off moves every prefix and every rest by one. */
  lemma ShiftAt(s: string, c: char, k: nat)
    requires k < |s|
    ensures c !in s[..k + 1] <==> s[0] != c && c !in s[1..][..k]
    ensures s[1..][k..] == s[k + 1..]
  {
    var a, b := s[..k + 1], s[1..][..k];
    assert a == [s[0]] + b;
    assert c in a <==> c == s[0] || c in b;
  }

  lemma RunStep(c: char, q: string, s: string)
    requires s != ""
    ensures RunThen(c, q, s) <==> Glob(q, s) || (s[0] != c && RunThen(c, q, s[1..]))
  {
    hide Glob;
    assert s[0..] == s && s[..0] == "";
    if Glob(q, s) {
      assert c !in s[..0] && Glob(q, s[0..]);
    }
    if s[0] != c && RunThen(c, q, s[1..]) {
      var k :| 0 <= k <= |s[1..]| && c !in s[1..][..k] && Glob(q, s[1..][k..]);
      ShiftAt(s, c, k);
      assert c !in s[..k + 1] && Glob(q, s[k + 1..]);
    }
    if RunThen(c, q, s) && !Glob(q, s) {
      var k :| 0 <= k <= |s| && c !in s[..k] && Glob(q, s[k..]);
      ShiftAt(s, c, k - 1);
      assert c !in s[1..][..k - 1] && Glob(q, s[1..][k - 1..]);
    }
  }

  lemma SlashStep(q: string, s: string)
    requires s != ""
    ensures SlashThen(q, s) <==> (s[0] == '/' && Glob(q, s[1..])) || (s[0] != '\n' && SlashThen(q, s[1..]))
  {
    hide Glob;
    assert s[..0] == "";
    if s[0] == '/' && Glob(q, s[1..]) {
      assert s[0] == '/' && '\n' !in s[..0] && Glob(q, s[0 + 1..]);
    }
    if s[0] != '\n' && SlashThen(q, s[1..]) {
      var k :| 0 <= k < |s[1..]| && s[1..][k] == '/' && '\n' !in s[1..][..k] && Glob(q, s[1..][k + 1..]);
      ShiftAt(s, '\n', k);
      assert s[1..][k + 1..] == s[k + 1 + 1..];
      assert s[k + 1] == '/' && '\n' !in s[..k + 1] && Glob(q, s[k + 1 + 1..]);
    }
    if SlashThen(q, s) && !(s[0] == '/' && Glob(q, s[1..])) {
      var k :| 0 <= k < |s| && s[k] == '/' && '\n' !in s[..k] && Glob(q, s[k + 1..]);
      ShiftAt(s, '\n', k - 1);
      assert s[1..][k - 1 + 1..] == s[k + 1..];
      assert s[1..][k - 1] == '/' && '\n' !in s[1..][..k - 1] && Glob(q, s[1..][k - 1 + 1..]);
    }
  }

  lemma RunOfNothing(c: char, q: string)
    ensures RunThen(c, q, "") <==> Glob(q, "")
  {
    assert ""[..0] == "" && ""[0..] == "";
    if Glob(q, "") {
      assert c !in ""[..0] && Glob(q, ""[0..]);
    }
  }

  lemma {:induction false} GlobAnyRun(p: string, s: string)
    requires StartsWith(p, "**") && !StartsWith(p, "**/")
    ensures Glob(p, s) <==> RunThen('\n', p[2..], s)
    decreases |s|
  {
    if s == "" {
      RunOfNothing('\n', p[2..]);
    } else {
      GlobAnyRun(p, s[1..]);
      RunStep('\n', p[2..], s);
    }
  }

  lemma {:induction false} GlobSegment(p: string, s: string)
    requires p != "" && p[0] == '*' && !StartsWith(p, "**")
    ensures Glob(p, s) <==> RunThen('/', p[1..], s)
    decreases |s|
  {
    if s == "" {
      RunOfNothing('/', p[1..]);
    } else {
      GlobSegment(p, s[1..]);
      RunStep('/', p[1..], s);
    }
  }

  lemma {:induction false} GlobBelow(p: string, s: string)
    requires StartsWith(p, "**/")
    ensures BelowSome(p, s) <==> SlashThen(p[3..], s)
    decreases |s|
  {
    if s != "" {
      GlobBelow(p, s[1..]);
      SlashStep(p[3..], s);
    }
  }

  // ---------------------------------------------------------------- compilation preserves meaning

  lemma {:induction false} CompiledMeansGlob(p: string, s: string)
    ensures MatchesAll(Pieces(p), s) <==> Glob(p, s)
    decreases |p|
  {
    if p == "" {
    } else if StartsWith(p, "**/") {
      SubdirsPiece(p, s);
    } else if StartsWith(p, "**") {
      AnyRunPiece(p, s);
    } else if p[0] == '*' {
      SegmentPiece(p, s);
    } else {
      LiteralPiece(p, s);
    }
  }

  lemma MatchesCons(r: Regex, rest: seq<Regex>, s: string)
    ensures MatchesAll([r] + rest, s) <==> exists k | 0 <= k <= |s| :: Matches(r, s[..k]) && MatchesAll(rest, s[k..])
  {
    hide Matches;
    assert ([r] + rest)[1..] == rest;
  }

  lemma {:induction false} SubdirsPiece(p: string, s: string)
    requires StartsWith(p, "**/")
    ensures MatchesAll(Pieces(p), s) <==> Glob(p, s)
    decreases |p|, 0
  {
    var q, rest := p[3..], Pieces(p[3..]);
    MatchesCons(SUBDIRS, rest, s);
    GlobBelow(p, s);
    assert Glob(p, s) <==> Glob(q, s) || SlashThen(q, s);
    assert Pieces(p) == [SUBDIRS] + rest;
    hide Matches, MatchesAll, Glob, Pieces;
    assert s[0..] == s && s[..0] == "";
    if SlashThen(q, s) {
      var k :| 0 <= k < |s| && s[k] == '/' && '\n' !in s[..k] && Glob(q, s[k + 1..]);
      SubdirsAt(s, k + 1);
      CompiledMeansGlob(q, s[k + 1..]);
      assert Matches(SUBDIRS, s[..k + 1]) && MatchesAll(rest, s[k + 1..]);
    }
    if Glob(q, s) {
      SubdirsAt(s, 0);
      CompiledMeansGlob(q, s);
      assert Matches(SUBDIRS, s[..0]) && MatchesAll(rest, s[0..]);
    }
    if k :| 0 <= k <= |s| && Matches(SUBDIRS, s[..k]) && MatchesAll(rest, s[k..]) {
      SubdirsAt(s, k);
      CompiledMeansGlob(q, s[k..]);
      if k > 0 {
        assert s[k - 1] == '/' && '\n' !in s[..k - 1] && Glob(q, s[k - 1 + 1..]);
      }
    }
  }

  lemma SubdirsAt(s: string, k: nat)
    requires k <= |s|
    ensures Matches(SUBDIRS, s[..k]) <==> k == 0 || (s[k - 1] == '/' && '\n' !in s[..k - 1])
  {
    hide Matches;
    SubdirsMatches(s[..k]);
    if k > 0 {
      assert s[..k][..k - 1] == s[..k - 1];
    }
  }

  lemma {:induction false} AnyRunPiece(p: string, s: string)
    requires StartsWith(p, "**") && !StartsWith(p, "**/")
    ensures MatchesAll(Pieces(p), s) <==> Glob(p, s)
    decreases |p|, 0
  {
    var q, rest := p[2..], Pieces(p[2..]);
    MatchesCons(ANY_RUN, rest, s);
    GlobAnyRun(p, s);
    assert Pieces(p) == [ANY_RUN] + rest;
    hide Matches, MatchesAll, Glob, Pieces;
    forall k | 0 <= k <= |s|
      ensures Matches(ANY_RUN, s[..k]) && MatchesAll(rest, s[k..]) <==> '\n' !in s[..k] && Glob(q, s[k..])
    {
      AnyRunMatches(s[..k]);
      CompiledMeansGlob(q, s[k..]);
    }
  }

  lemma OneStar(p: string)
    requires !StartsWith(p, "**")
    ensures !StartsWith(p, "**/")
  {
  }

  lemma {:induction false} SegmentPiece(p: string, s: string)
    requires p != "" && p[0] == '*' && !StartsWith(p, "**")
    ensures MatchesAll(Pieces(p), s) <==> Glob(p, s)
    decreases |p|, 0
  {
    var q, rest := p[1..], Pieces(p[1..]);
    OneStar(p);
    MatchesCons(SEGMENT, rest, s);
    GlobSegment(p, s);
    assert Pieces(p) == [SEGMENT] + rest;
    hide Matches, MatchesAll, Glob, Pieces;
    forall k | 0 <= k <= |s|
      ensures Matches(SEGMENT, s[..k]) && MatchesAll(rest, s[k..]) <==> '/' !in s[..k] && Glob(q, s[k..])
    {
      SegmentMatches(s[..k]);
      CompiledMeansGlob(q, s[k..]);
    }
  }

  lemma {:induction false} LiteralPiece(p: string, s: string)
    requires p != "" && p[0] != '*'
    ensures MatchesAll(Pieces(p), s) <==> Glob(p, s)
    decreases |p|, 0
  {
    var rest := Pieces(p[1..]);
    if s != "" {
      CompiledMeansGlob(p[1..], s[1..]);
      assert s[..1] == [s[0]];
      if SameChar(s[0], p[0]) && Glob(p[1..], s[1..]) {
        assert Matches(Lit(p[0]), s[..1]) && MatchesAll(rest, s[1..]);
      }
    }
  }

  // ---------------------------------------------------------------- the shapes the trigger uses

  predicate SameText(a: string, b: string) {
    |a| == |b| && forall i | 0 <= i < |a| :: SameChar(a[i], b[i])
  }

  lemma {:induction false} GlobLiteralPrefix(d: string, p: string, s: string)
    requires '*' !in d
    ensures Glob(d + p, s) <==> |d| <= |s| && SameText(s[..|d|], d) && Glob(p, s[|d|..])
  {
    if d == "" {
      assert d + p == p && s[0..] == s;
    } else {
      var q := d + p;
      assert q[0] == d[0] && q[1..] == d[1..] + p;
      if s != "" {
        GlobLiteralPrefix(d[1..], p, s[1..]);
        if |d| <= |s| {
          HeadText(s, d);
          assert s[1..][|d| - 1..] == s[|d|..];
        }
      }
    }
  }

  lemma HeadText(s: string, d: string)
    requires s != "" && d != "" && |d| <= |s|
    ensures SameText(s[..|d|], d) <==> SameChar(s[0], d[0]) && SameText(s[1..][..|d| - 1], d[1..])
  {
  }

  // `D/**`, for a literal `D`, matches exactly the paths below `D`: those with the prefix
  // `D/` up to case, and no newline after it.
  lemma DirectoryGlob(d: string, s: string)
    requires '*' !in d
    ensures Glob(d + "/**", s) <==>
            |s| > |d| && SameText(s[..|d|], d) && s[|d|] == '/' && '\n' !in s[|d| + 1..]
  {
    var dir := d + "/";
    JoinStars(d);
    GlobLiteralPrefix(dir, "**", s);
    hide Glob, SameText;
    if |s| > |d| {
      StarsMatchRest(s[|d| + 1..]);
      SlashHasNoCase(s[|d|]);
      PrefixText(s, d);
    }
  }

  lemma JoinStars(d: string)
    requires '*' !in d
    ensures d + "/**" == (d + "/") + "**" && '*' !in d + "/"
  {
  }

  lemma StarsMatchRest(tail: string)
    ensures Glob("**", tail) <==> '\n' !in tail
  {
  }

  lemma PrefixText(s: string, d: string)
    requires |s| > |d|
    ensures SameText(s[..|d| + 1], d + "/") <==> SameText(s[..|d|], d) && SameChar(s[|d|], '/')
  {
  }

  /** `**` slash `X` matches a path if it or some part of it after a slash matches `X`. */
  lemma AnywhereGlob(x: string, s: string)
    ensures Glob("**/" + x, s) <==> Glob(x, s) || SlashThen(x, s)
  {
    var p := "**/" + x;
    assert p[3..] == x && p[..3] == "**/";
    GlobBelow(p, s);
  }

  /** A single star, before a pattern that does not start with one, eats any run without a slash. */
  lemma StarGlob(p: string, s: string)
    requires p == "" || p[0] != '*'
    ensures Glob("*" + p, s) <==> exists k | 0 <= k <= |s| :: '/' !in s[..k] && Glob(p, s[k..])
  {
    hide Glob;
    StarsMeans("*" + p);
    GlobSegment("*" + p, s);
    assert ("*" + p)[1..] == p;
  }

  /** A double star, before a pattern that does not start with a slash, eats any run without a newline. */
  lemma DoubleStarGlob(p: string, s: string)
    requires p == "" || p[0] != '/'
    ensures Glob("**" + p, s) <==> exists k | 0 <= k <= |s| :: '\n' !in s[..k] && Glob(p, s[k..])
  {
    hide Glob;
    StarsMeans("**" + p);
    GlobAnyRun("**" + p, s);
    assert ("**" + p)[2..] == p;
  }

  // ---------------------------------------------------------------- patterns with stars before the slash

  predicate EndsWith(s: string, suffix: string) {
    |suffix| <= |s| && s[|s| - |suffix|..] == suffix
  }

  /** No star of `p` runs into `q`, so the compiler reads one and then the other. */
  predicate JoinsCleanly(p: string, q: string) {
    q != "" && q[0] != '*' && !(q[0] == '/' && EndsWith(p, "**"))
  }

  lemma {:induction false} PiecesJoin(p: string, q: string)
    requires JoinsCleanly(p, q)
    ensures Pieces(p + q) == Pieces(p) + Pieces(q)
  {
    hide *;
    if p == "" {
      assert p + q == q;
      NoPieces();
    } else {
      StartsAlike(p, q);
      FirstPiece(p);
      FirstPiece(p + q);
      var n := Width(p);
      assert (p + q)[n..] == p[n..] + q;
      TailJoins(p, q, n);
      PiecesJoin(p[n..], q);
    }
  }

  /** How much of the pattern its first piece takes. */
  function Width(p: string): nat {
    if StartsWith(p, "**/") then 3 else if StartsWith(p, "**") then 2 else 1
  }

  function First(p: string): Regex
    requires p != ""
  {
    if StartsWith(p, "**/") then SUBDIRS else if StartsWith(p, "**") then ANY_RUN
    else if p[0] == '*' then SEGMENT else Lit(p[0])
  }

  lemma FirstPiece(p: string)
    requires p != ""
    ensures Width(p) <= |p| && Pieces(p) == [First(p)] + Pieces(p[Width(p)..])
  {
    hide StartsWith;
    StarsMeans(p);
  }

  lemma NoPieces()
    ensures Pieces("") == []
  {
  }

  lemma StarsMeans(s: string)
    ensures StartsWith(s, "**") <==> |s| >= 2 && s[0] == '*' && s[1] == '*'
    ensures StartsWith(s, "**/") <==> |s| >= 3 && s[0] == '*' && s[1] == '*' && s[2] == '/'
  {
    assert |s| >= 2 ==> s[..2] == [s[0], s[1]];
    assert |s| >= 3 ==> s[..3] == [s[0], s[1], s[2]];
  }

  lemma StartsAlike(p: string, q: string)
    requires p != "" && JoinsCleanly(p, q)
    ensures Width(p + q) == Width(p) && First(p + q) == First(p)
  {
    StarsMeans(p + q);
    StarsMeans(p);
    assert |p| == 2 ==> p[|p| - 2..] == p;
  }

  lemma TailJoins(p: string, q: string, n: nat)
    requires JoinsCleanly(p, q) && n <= |p|
    ensures JoinsCleanly(p[n..], q)
  {
    if EndsWith(p[n..], "**") {
      assert p[n..][|p| - n - 2..] == p[|p| - 2..];
    }
  }

  lemma {:induction false} MatchesJoin(a: seq<Regex>, b: seq<Regex>, s: string)
    ensures MatchesAll(a + b, s) <==> exists k | 0 <= k <= |s| :: MatchesAll(a, s[..k]) && MatchesAll(b, s[k..])
    decreases |a|
  {
    hide Matches;
    if a == [] {
      assert a + b == b && s[..0] == "" && s[0..] == s;
      if MatchesAll(b, s) {
        assert MatchesAll(a, s[..0]) && MatchesAll(b, s[0..]);
      }
    } else {
      var r, rest := a[0], a[1..];
      assert (a + b)[1..] == rest + b;
      if i :| 0 <= i <= |s| && Matches(r, s[..i]) && MatchesAll(rest + b, s[i..]) {
        MatchesJoin(rest, b, s[i..]);
        var k :| 0 <= k <= |s[i..]| && MatchesAll(rest, s[i..][..k]) && MatchesAll(b, s[i..][k..]);
        SliceTwice(s, i, i + k);
        assert Matches(r, s[..i + k][..i]) && MatchesAll(rest, s[..i + k][i..]);
        assert MatchesAll(a, s[..i + k]) && MatchesAll(b, s[i + k..]);
      }
      if k :| 0 <= k <= |s| && MatchesAll(a, s[..k]) && MatchesAll(b, s[k..]) {
        var i :| 0 <= i <= |s[..k]| && Matches(r, s[..k][..i]) && MatchesAll(rest, s[..k][i..]);
        SliceTwice(s, i, k);
        MatchesJoin(rest, b, s[i..]);
        assert MatchesAll(rest, s[i..][..k - i]) && MatchesAll(b, s[i..][k - i..]);
        assert Matches(r, s[..i]) && MatchesAll(rest + b, s[i..]);
      }
    }
  }

  lemma SliceTwice(s: string, i: nat, k: nat)
    requires i <= k <= |s|
    ensures s[..k][..i] == s[..i] && s[..k][i..] == s[i..][..k - i] && s[i..][k - i..] == s[k..]
  {
  }

  /** Patterns that join cleanly match one after the other. */
  lemma GlobJoin(p: string, q: string, s: string)
    requires JoinsCleanly(p, q)
    ensures Glob(p + q, s) <==> exists k | 0 <= k <= |s| :: Glob(p, s[..k]) && Glob(q, s[k..])
  {
    hide Glob, MatchesAll, Pieces;
    CompiledMeansGlob(p + q, s);
    PiecesJoin(p, q);
    MatchesJoin(Pieces(p), Pieces(q), s);
    forall k | 0 <= k <= |s|
      ensures MatchesAll(Pieces(p), s[..k]) && MatchesAll(Pieces(q), s[k..]) <==> Glob(p, s[..k]) && Glob(q, s[k..])
    {
      CompiledMeansGlob(p, s[..k]);
      CompiledMeansGlob(q, s[k..]);
    }
  }

  // `P/**`, for any pattern `P` that does not end in a double star, matches exactly the paths
  // with a slash before which `P` matches and after which there is no newline.
  lemma DirectoryPatternGlob(p: string, s: string)
    requires !EndsWith(p, "**")
    ensures Glob(p + "/**", s) <==>
            exists k | 0 <= k < |s| :: Glob(p, s[..k]) && s[k] == '/' && '\n' !in s[k + 1..]
  {
    hide Glob;
    GlobJoin(p, "/**", s);
    if Glob(p + "/**", s) {
      var k :| 0 <= k <= |s| && Glob(p, s[..k]) && Glob("/**", s[k..]);
      BelowSlash(s, k);
      assert Glob(p, s[..k]) && s[k] == '/' && '\n' !in s[k + 1..];
    }
    if k :| 0 <= k < |s| && Glob(p, s[..k]) && s[k] == '/' && '\n' !in s[k + 1..] {
      BelowSlash(s, k);
      assert Glob(p, s[..k]) && Glob("/**", s[k..]);
    }
  }

  lemma BelowSlash(s: string, k: nat)
    requires k <= |s|
    ensures Glob("/**", s[k..]) <==> k < |s| && s[k] == '/' && '\n' !in s[k + 1..]
  {
    hide Glob;
    var t := s[k..];
    DirectoryGlob("", t);
    assert "" + "/**" == "/**";
    if t != "" {
      assert t[..0] == "" && t[1..] == s[k + 1..];
    }
  }

  /**
   * A newline in the last segment of a path hides it from every compiled directory pattern:
   * the final dots do not match a newline, and no slash comes after it.
   */
  lemma NewlineEscapesDirectoryGlob(p: string, s: string, i: nat)
    requires !EndsWith(p, "**") && i < |s| && s[i] == '\n' && '/' !in s[i..]
    ensures !MatchesAll(Pieces(p + "/**"), s)
  {
    hide Glob, MatchesAll, Pieces;
    CompiledMeansGlob(p + "/**", s);
    DirectoryPatternGlob(p, s);
    forall k | 0 <= k < |s| && s[k] == '/' ensures '\n' in s[k + 1..] {
      assert k < i;
      assert s[k + 1..][i - k - 1] == '\n';
    }
  }

  /** A newline before the last slash need not: a single star matches it. */
  lemma NewlineInDirectoryCanMatch()
    ensures Glob("b*/**", "b\n/x")
  {
    var s := "b\n/x";
    assert "b*" + "/**" == "b*/**";
    DirectoryPatternGlob("b*", s);
    assert Glob("b*", "b\n") by {
      assert "b*"[1..] == "*" && "b\n"[1..] == "\n" && "*"[1..] == "" && "\n"[1..] == "";
      assert Glob("*", "\n") && !StartsWith("b*", "**") && !StartsWith("b*", "**/");
    }
    assert s[..2] == "b\n" && s[2] == '/' && s[3..] == "x";
  }
}
