/**
 * The merge decision over one pull request: which changed paths are flagged, what its body
 * declares, and whether that clears it. A body is given line by line as its declarations.
 */
module MergeRule {
  import opened Wrappers
  import opened GlobPatterns

  datatype Name = Reserved | Review | Authorized

  /** What the plain parse and the tightening wide parse find on one body line. */
  datatype Line = Line(plain: Option<(Name, string)>, wide: seq<string>)

  datatype Outcome = Clean | Blocking
  datatype ReviewLine = ReviewLine(sha: string, outcome: Outcome)

  datatype Severity = Blocker | Info

  datatype Rules = Rules(flag: seq<string>, except: seq<string>, reviewed: seq<string>, topLevel: set<string>)

  function LowerText(s: string): string {
    seq(|s|, i requires 0 <= i < |s| => Lower(s[i]))
  }

  // ---------------------------------------------------------------- paths

  predicate AnyGlob(patterns: seq<string>, path: string) {
    exists p | p in patterns :: Glob(p, path)
  }

  /** `src/` for a path under a directory, the name itself for a root file. */
  function TopLevel(path: string): string {
    if path == "" then "" else if path[0] == '/' then "/" else [path[0]] + TopLevel(path[1..])
  }

  predicate Flagged(rules: Rules, path: string) {
    if AnyGlob(rules.reviewed, path) then true
    else if !(AnyGlob(rules.flag, path) || LowerText(TopLevel(path)) !in rules.topLevel) then false
    else !AnyGlob(rules.except, path)
  }

  function TradingPaths(rules: Rules, paths: seq<string>): set<string> {
    set p | p in paths && Flagged(rules, p)
  }

  /** The top level is everything up to and including the first slash. */
  lemma {:induction false} TopLevelMeans(path: string)
    ensures TopLevel(path) <= path
    ensures '/' !in path ==> TopLevel(path) == path
    ensures var n := |TopLevel(path)| - 1;
            '/' in path ==> n >= 0 && TopLevel(path)[n] == '/' && '/' !in TopLevel(path)[..n]
  {
    if path != "" && path[0] != '/' {
      var t := TopLevel(path[1..]);
      TopLevelMeans(path[1..]);
      assert path == [path[0]] + path[1..];
      if '/' in path {
        assert ([path[0]] + t)[..|t|] == [path[0]] + t[..|t| - 1];
      }
    }
  }

  // A path below a flagged directory (whose pattern may hold stars), or under a top level nobody
  // has reviewed, is flagged unless an exception names it; no exception unflags a path reviewed by name.
  lemma FlaggedByDefault(rules: Rules, d: string, path: string, k: nat)
    requires
      || (&& !EndsWith(d, "**") && d + "/**" in rules.flag
          && k < |path| && Glob(d, path[..k]) && path[k] == '/' && '\n' !in path[k + 1..])
      || LowerText(TopLevel(path)) !in rules.topLevel
    ensures Flagged(rules, path) <==> AnyGlob(rules.reviewed, path) || !AnyGlob(rules.except, path)
  {
    hide Glob, TopLevel;
    if LowerText(TopLevel(path)) in rules.topLevel {
      DirectoryPatternGlob(d, path);
    }
  }

  // Without a match of a flag pattern, and under a reviewed top level, only a review by name
  // flags a path; exceptions play no part.
  lemma UnflaggedByDefault(rules: Rules, path: string)
    requires !exists p | p in rules.flag :: Glob(p, path)
    requires LowerText(TopLevel(path)) in rules.topLevel
    ensures Flagged(rules, path) <==> exists p | p in rules.reviewed :: Glob(p, path)
  {
    hide Glob, TopLevel;
  }

  // ---------------------------------------------------------------- declarations

  predicate IsSpace(c: char) { c == ' ' || '\t' <= c <= '\r' }

  function Strip(s: string): string {
    if s != "" && IsSpace(s[0]) then Strip(s[1..])
    else if s != "" && IsSpace(s[|s| - 1]) then Strip(s[..|s| - 1])
    else s
  }

  predicate IsNone(value: string) {
    LowerText(Strip(value)) in {"none", "none."}
  }

  ghost predicate Spaces(s: string) {
    forall c | c in s :: IsSpace(c)
  }

  /** `core` with nothing but white space around it. */
  ghost predicate PaddedAs(s: string, before: string, core: string, after: string) {
    s == before + core + after && Spaces(before) && Spaces(after)
  }

  lemma {:induction false} StripParts(s: string) returns (before: string, after: string)
    ensures PaddedAs(s, before, Strip(s), after)
    decreases |s|
  {
    before, after := "", "";
    if s != "" && IsSpace(s[0]) {
      before, after := StripParts(s[1..]);
      before := [s[0]] + before;
    } else if s != "" && IsSpace(s[|s| - 1]) {
      before, after := StripParts(s[..|s| - 1]);
      after := after + [s[|s| - 1]];
    }
  }

  lemma {:induction false} StripPadded(s: string, before: string, core: string, after: string)
    requires PaddedAs(s, before, core, after)
    requires core != "" && !IsSpace(core[0]) && !IsSpace(core[|core| - 1])
    ensures Strip(s) == core
    decreases |before| + |after|
  {
    if before != "" {
      assert s[0] == before[0] && s[1..] == before[1..] + core + after;
      StripPadded(s[1..], before[1..], core, after);
    } else if after != "" {
      var n := |after| - 1;
      assert s[|s| - 1] == after[n] && s[..|s| - 1] == before + core + after[..n];
      StripPadded(s[..|s| - 1], before, core, after[..n]);
    }
  }

  lemma FoldedText(s: string, t: string)
    requires LowerText(t) == t
    ensures LowerText(s) == t <==> SameText(s, t)
  {
    assert forall i | 0 <= i < |t| :: LowerText(t)[i] == Lower(t[i]);
    assert forall i | 0 <= i < |s| :: LowerText(s)[i] == Lower(s[i]);
  }

  /** `none` means the word, in any case, with an optional full stop and white space around it. */
  lemma NoneMeans(value: string)
    ensures IsNone(value) <==>
            exists before, core, after ::
              PaddedAs(value, before, core, after) && (SameText(core, "none") || SameText(core, "none."))
  {
    hide Strip, LowerText;
    NoneFolded();
    if IsNone(value) {
      var before, after := StripParts(value);
      FoldedText(Strip(value), "none");
      FoldedText(Strip(value), "none.");
      assert PaddedAs(value, before, Strip(value), after);
    }
    if before, core, after :|
      PaddedAs(value, before, core, after) && (SameText(core, "none") || SameText(core, "none."))
    {
      SpacesHaveNoCase(core[0], 'n');
      SpacesHaveNoCase(core[|core| - 1], if |core| == 4 then 'e' else '.');
      StripPadded(value, before, core, after);
      FoldedText(core, "none");
      FoldedText(core, "none.");
    }
  }

  lemma NoneFolded()
    ensures LowerText("none") == "none" && LowerText("none.") == "none."
  {
  }

  lemma SpacesHaveNoCase(c: char, d: char)
    requires SameChar(c, d) && !IsSpace(d)
    ensures !IsSpace(c)
  {
  }

  function Declared(lines: seq<Line>, name: Name): seq<string> {
    if lines == [] then []
    else
      var last := lines[|lines| - 1].plain;
      Declared(lines[..|lines| - 1], name) + if last.Some? && last.value.0 == name then [last.value.1] else []
  }

  function NotNone(values: seq<string>): seq<string> {
    if values == [] then []
    else NotNone(values[..|values| - 1]) + if IsNone(values[|values| - 1]) then [] else [values[|values| - 1]]
  }

  predicate PlainReserved(line: Line) {
    line.plain.Some? && line.plain.value.0.Reserved?
  }

  function Tightening(lines: seq<Line>): seq<string> {
    if lines == [] then []
    else
      var last := lines[|lines| - 1];
      Tightening(lines[..|lines| - 1]) + if PlainReserved(last) then [] else NotNone(last.wide)
  }

  /** `reserved_values`: plain values, then what containers add beyond `none`. */
  method ReservedValues(lines: seq<Line>) returns (values: seq<string>)
    ensures values == Declared(lines, Reserved) + Tightening(lines)
  {
    hide NotNone;
    values := Declared(lines, Reserved);
    for i := 0 to |lines|
      invariant values == Declared(lines, Reserved) + Tightening(lines[..i])
    {
      assert lines[..i + 1][..i] == lines[..i];
      if !PlainReserved(lines[i]) {
        values := values + NotNone(lines[i].wide);
      }
    }
    assert lines[..|lines|] == lines;
  }

  predicate Authorizes(sha: string, head: string) {
    sha != "" && head != "" && |sha| >= 7 && StartsWith(LowerText(head), LowerText(sha))
  }

  /** A SHA authorizes a head if it is a prefix of it, in any case, of at least seven characters. */
  lemma AuthorizesMeans(sha: string, head: string)
    ensures Authorizes(sha, head) <==>
            7 <= |sha| <= |head| && forall i | 0 <= i < |sha| :: SameChar(sha[i], head[i])
  {
    if |sha| <= |head| {
      var a, b := LowerText(head)[..|sha|], LowerText(sha);
      assert forall i | 0 <= i < |sha| :: a[i] == Lower(head[i]) && b[i] == Lower(sha[i]);
    }
  }

  type ReviewParser = string -> Option<ReviewLine>

  /** `clean_review_for_head`. */
  predicate CleanReview(lines: seq<Line>, head: string, parse: ReviewParser) {
    var values := NotNone(Declared(lines, Review));
    var current :=
      set v | v in values && parse(v).Some? && StartsWith(LowerText(head), parse(v).value.sha) :: parse(v).value;
    && LowerText(head) != ""
    && (forall v | v in values :: parse(v).Some?)
    && current != {}
    && (forall r | r in current :: r.outcome.Clean?)
  }

  /** `assess`: the severity, with the flagged paths it reports. */
  function Assess(
    rules: Rules, paths: seq<string>, lines: seq<Line>, head: string, shas: seq<string>, parse: ReviewParser
  ): (Severity, set<string>)
  {
    var hits := TradingPaths(rules, paths);
    var values := Declared(lines, Reserved) + Tightening(lines);
    var reserved := NotNone(values);
    var authorized := exists sha | sha in shas :: Authorizes(sha, head);
    if reserved != [] || "" in values then
      if authorized then (Info, hits) else (Blocker, hits)
    else if hits != {} then
      if values == [] then (Blocker, hits)
      else if !CleanReview(lines, head, parse) then (Blocker, hits)
      else (Info, hits)
    else if values == [] then (Blocker, {})
    else (Info, {})
  }

  // ---------------------------------------------------------------- what a pass means

  lemma {:induction false} DeclaredMember(lines: seq<Line>, name: Name, v: string)
    ensures v in Declared(lines, name) <==> exists l | l in lines :: l.plain == Some((name, v))
  {
    if lines != [] {
      DeclaredMember(lines[..|lines| - 1], name, v);
      assert lines == lines[..|lines| - 1] + [lines[|lines| - 1]];
    }
  }

  lemma {:induction false} NotNoneMember(values: seq<string>, v: string)
    ensures v in NotNone(values) <==> v in values && !IsNone(v)
  {
    if values != [] {
      NotNoneMember(values[..|values| - 1], v);
      assert values == values[..|values| - 1] + [values[|values| - 1]];
    }
  }

  lemma {:induction false} TighteningMember(lines: seq<Line>, v: string)
    ensures v in Tightening(lines) <==> exists l | l in lines :: !PlainReserved(l) && v in l.wide && !IsNone(v)
  {
    if lines != [] {
      TighteningMember(lines[..|lines| - 1], v);
      NotNoneMember(lines[|lines| - 1].wide, v);
      assert lines == lines[..|lines| - 1] + [lines[|lines| - 1]];
    }
  }

  /** A line that declares some reserved effect, plainly or in any container. */
  predicate DeclaresEffect(line: Line) {
    if PlainReserved(line) then !IsNone(line.plain.value.1)
    else exists v | v in line.wide :: !IsNone(v)
  }

  predicate PlainNone(line: Line) {
    PlainReserved(line) && IsNone(line.plain.value.1)
  }

  lemma EffectShows(lines: seq<Line>)
    ensures NotNone(Declared(lines, Reserved) + Tightening(lines)) != [] <==> exists l | l in lines :: DeclaresEffect(l)
  {
    hide IsNone, Declared, Tightening, NotNone;
    var values := Declared(lines, Reserved) + Tightening(lines);
    if l :| l in lines && DeclaresEffect(l) {
      if PlainReserved(l) {
        DeclaredMember(lines, Reserved, l.plain.value.1);
        NotNoneMember(values, l.plain.value.1);
      } else {
        var v :| v in l.wide && !IsNone(v);
        TighteningMember(lines, v);
        NotNoneMember(values, v);
      }
    }
    if NotNone(values) != [] {
      var v := NotNone(values)[0];
      assert v in NotNone(values);
      NotNoneMember(values, v);
      DeclaredMember(lines, Reserved, v);
      TighteningMember(lines, v);
      if v in Declared(lines, Reserved) {
        var l :| l in lines && l.plain == Some((Reserved, v));
        assert DeclaresEffect(l);
      } else {
        var l :| l in lines && !PlainReserved(l) && v in l.wide && !IsNone(v);
        assert DeclaresEffect(l);
      }
    }
  }

  lemma NoneShows(lines: seq<Line>)
    requires !exists l | l in lines :: DeclaresEffect(l)
    ensures Declared(lines, Reserved) + Tightening(lines) != [] <==> exists l | l in lines :: PlainNone(l)
  {
    hide IsNone, Declared, Tightening;
    if l :| l in lines && PlainNone(l) {
      DeclaredMember(lines, Reserved, l.plain.value.1);
    }
    if Tightening(lines) != [] {
      var v := Tightening(lines)[0];
      TighteningMember(lines, v);
    }
    if Declared(lines, Reserved) != [] {
      var v := Declared(lines, Reserved)[0];
      DeclaredMember(lines, Reserved, v);
      var l :| l in lines && l.plain == Some((Reserved, v));
      assert !DeclaresEffect(l);
      assert PlainNone(l);
    }
  }

  lemma BlankIsAnEffect()
    ensures !IsNone("")
  {
    assert LowerText(Strip("")) == "";
  }

  /**
   * A pull request passes exactly when either it declares an effect and a SHA of at least
   * seven characters that prefixes its head authorizes it, or it plainly declares `none`,
   * no line in any container declares anything else, and its flagged paths, if any, are
   * covered by clean reviews of this head.
   */
  lemma PassesExactlyWhen(
    rules: Rules, paths: seq<string>, lines: seq<Line>, head: string, shas: seq<string>, parse: ReviewParser)
    ensures Assess(rules, paths, lines, head, shas, parse).0.Info? <==>
            if exists l | l in lines :: DeclaresEffect(l) then
              exists sha | sha in shas ::
                7 <= |sha| <= |head| && forall i | 0 <= i < |sha| :: SameChar(sha[i], head[i])
            else
              && (exists l | l in lines :: PlainNone(l))
              && ((exists p | p in paths :: Flagged(rules, p)) ==> CleanReview(lines, head, parse))
    ensures Assess(rules, paths, lines, head, shas, parse).1 == set p | p in paths && Flagged(rules, p)
  {
    hide CleanReview, Authorizes, Flagged, Declared, Tightening, NotNone, DeclaresEffect, IsNone, SameChar;
    forall sha | sha in shas
      ensures Authorizes(sha, head) <==>
              7 <= |sha| <= |head| && forall i | 0 <= i < |sha| :: SameChar(sha[i], head[i])
    {
      AuthorizesMeans(sha, head);
    }
    var values := Declared(lines, Reserved) + Tightening(lines);
    EffectShows(lines);
    BlankIsAnEffect();
    NotNoneMember(values, "");
    if p :| p in paths && Flagged(rules, p) {
      assert p in TradingPaths(rules, paths);
    }
    if !exists l | l in lines :: DeclaresEffect(l) {
      NoneShows(lines);
    }
  }

  /** Adding changed paths never clears a blocker. */
  lemma MorePathsNeverUnblock(
    rules: Rules, paths: seq<string>, more: seq<string>, lines: seq<Line>, head: string, shas: seq<string>,
    parse: ReviewParser)
    requires forall p | p in paths :: p in more
    requires Assess(rules, paths, lines, head, shas, parse).0.Blocker?
    ensures Assess(rules, more, lines, head, shas, parse).0.Blocker?
  {
    hide CleanReview, Authorizes, Flagged, Declared, Tightening, NotNone;
    assert TradingPaths(rules, paths) <= TradingPaths(rules, more);
  }

  /** What a clean review claims, without the intermediate set. */
  lemma CleanReviewMeans(lines: seq<Line>, head: string, parse: ReviewParser)
    ensures CleanReview(lines, head, parse) <==>
            && head != ""
            && (forall l | l in lines && l.plain.Some? && l.plain.value.0.Review? && !IsNone(l.plain.value.1) ::
                  parse(l.plain.value.1).Some?)
            && (exists l | l in lines :: CurrentReview(l, head, parse))
            && (forall l | l in lines && CurrentReview(l, head, parse) :: parse(l.plain.value.1).value.outcome.Clean?)
  {
    hide IsNone, Declared, NotNone, StartsWith;
    var declared := Declared(lines, Review);
    var values := NotNone(declared);
    forall v: string | parse(v).Some?
      ensures StartsWith(LowerText(head), parse(v).value.sha) <==>
              var sha := parse(v).value.sha;
              |sha| <= |head| && forall i | 0 <= i < |sha| :: sha[i] == Lower(head[i])
    {
      NamesHead(head, parse(v).value.sha);
    }
    forall v: string ensures v in values <==> !IsNone(v) && exists l | l in lines :: l.plain == Some((Review, v)) {
      NotNoneMember(declared, v);
      DeclaredMember(lines, Review, v);
    }
    var current :=
      set v | v in values && parse(v).Some? && StartsWith(LowerText(head), parse(v).value.sha) :: parse(v).value;
    forall l | l in lines && CurrentReview(l, head, parse) ensures parse(l.plain.value.1).value in current {
      assert l.plain.value.1 in values;
    }
    if r :| r in current {
      var v :| v in values && parse(v).Some? && StartsWith(LowerText(head), parse(v).value.sha) && parse(v).value == r;
      var l :| l in lines && l.plain == Some((Review, v));
      assert CurrentReview(l, head, parse);
    }
    if && head != ""
       && (forall l | l in lines && CurrentReview(l, head, parse) :: parse(l.plain.value.1).value.outcome.Clean?)
    {
      forall r | r in current ensures r.outcome.Clean? {
        var v :|
          v in values && parse(v).Some? && StartsWith(LowerText(head), parse(v).value.sha) && parse(v).value == r;
        var l :| l in lines && l.plain == Some((Review, v));
        assert CurrentReview(l, head, parse);
      }
    }
  }

  /** A parsed review line that names this head. */
  predicate CurrentReview(l: Line, head: string, parse: ReviewParser) {
    && l.plain.Some? && l.plain.value.0.Review? && !IsNone(l.plain.value.1)
    && parse(l.plain.value.1).Some?
    && var sha := parse(l.plain.value.1).value.sha;
       |sha| <= |head| && forall i | 0 <= i < |sha| :: sha[i] == Lower(head[i])
  }

  lemma NamesHead(head: string, sha: string)
    ensures StartsWith(LowerText(head), sha) <==>
            |sha| <= |head| && forall i | 0 <= i < |sha| :: sha[i] == Lower(head[i])
  {
    if |sha| <= |head| {
      assert forall i | 0 <= i < |sha| :: LowerText(head)[..|sha|][i] == Lower(head[i]);
    }
  }
}
