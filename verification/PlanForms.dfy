/** What decomposePlan (cmd/nilcore/decompose.go) makes of the two forms of a goal: one sub-goal for each
    line of a list, and one for each part of a sentence joined by " and ", ", and " or ';'. */
module PlanForms {
  import opened Text
  import opened Decompose

  // --- List markers ---

  const BLANKS := " \t\n\r\U{00000C}"

  predicate AllBlank(s: string) {
    forall c :: c in s ==> c in BLANKS
  }

  predicate AllDigits(s: string) {
    forall c :: c in s ==> c in "0123456789"
  }

  /** "-", "*", or a number with a dot or a closing bracket. */
  predicate IsMark(m: string) {
    m == "-" || m == "*" || (|m| >= 2 && AllDigits(m[..|m| - 1]) && m[|m| - 1] in ".)")
  }

  /** The line is a marker between white space, the leading part of which may be empty, and then `rest`. */
  predicate Marked(line: string, lead: string, mark: string, gap: string, rest: string) {
    && line == lead + (mark + (gap + rest))
    && AllBlank(lead) && IsMark(mark) && gap != "" && AllBlank(gap) && (rest != "" ==> rest[0] !in BLANKS)
  }

  lemma BlanksAreSpaces(c: char)
    ensures IsMarkerSpace(c) <==> c in BLANKS
  {
    assert BLANKS[4] as int == 0x0C;
  }

  lemma {:induction false} SkipsBlanks(lead: string, x: string)
    requires AllBlank(lead) && (x != "" ==> x[0] !in BLANKS)
    ensures SkipMarkerSpace(lead + x) == x
    decreases |lead|
  {
    if lead == "" {
      assert lead + x == x;
      if x != "" {
        BlanksAreSpaces(x[0]);
      }
    } else {
      assert lead[0] in lead;
      BlanksAreSpaces(lead[0]);
      assert (lead + x)[1..] == lead[1..] + x;
      SkipsBlanks(lead[1..], x);
    }
  }

  lemma {:induction false} SkipsDigits(digits: string, x: string)
    requires AllDigits(digits) && (x != "" ==> x[0] !in "0123456789")
    ensures SkipDigits(digits + x) == x
    decreases |digits|
  {
    if digits == "" {
      assert digits + x == x;
    } else {
      assert digits[0] in digits;
      assert (digits + x)[1..] == digits[1..] + x;
      SkipsDigits(digits[1..], x);
    }
  }

  lemma {:induction false} AfterMark(mark: string, x: string)
    requires IsMark(mark)
    ensures AfterBullet(mark + x) == x
  {
    if mark == "-" || mark == "*" {
      assert (mark + x)[1..] == x;
    } else {
      var n := |mark| - 1;
      var end := [mark[n]] + x;
      assert mark + x == mark[..n] + end && end[1..] == x;
      SkipsDigits(mark[..n], end);
      assert mark[0] in mark[..n];
    }
  }

  /** A marker is removed with all the white space around it. */
  lemma {:induction false} MarkIsStripped(line: string, lead: string, mark: string, gap: string, rest: string)
    requires Marked(line, lead, mark, gap, rest)
    ensures StripMarker(line) == rest
  {
    MarkIsNoBlank(mark);
    SkipsBlanks(lead, mark + (gap + rest));
    AfterMark(mark, gap + rest);
    SkipsBlanks(gap, rest);
    assert gap[0] in gap;
    BlanksAreSpaces(gap[0]);
  }

  lemma MarkIsNoBlank(mark: string)
    requires IsMark(mark)
    ensures mark[0] !in BLANKS
  {
    if |mark| >= 2 {
      assert mark[0] in mark[..|mark| - 1];
    }
  }

  lemma {:induction false} SkippedBlanks(s: string)
    ensures var r := SkipMarkerSpace(s);
            s[|s| - |r|..] == r && AllBlank(s[..|s| - |r|]) && (r != "" ==> r[0] !in BLANKS)
    decreases |s|
  {
    if s != "" {
      BlanksAreSpaces(s[0]);
      if IsMarkerSpace(s[0]) {
        var r := SkipMarkerSpace(s);
        SkippedBlanks(s[1..]);
        assert s[..|s| - |r|] == [s[0]] + s[1..][..|s[1..]| - |r|];
      }
    }
  }

  lemma {:induction false} SkippedDigits(s: string)
    ensures var r := SkipDigits(s); s[|s| - |r|..] == r && AllDigits(s[..|s| - |r|])
    decreases |s|
  {
    if s != "" && '0' <= s[0] <= '9' {
      var r := SkipDigits(s);
      SkippedDigits(s[1..]);
      assert s[..|s| - |r|] == [s[0]] + s[1..][..|s[1..]| - |r|];
      DigitsAreListed(s[0]);
    }
  }

  lemma DigitsAreListed(c: char)
    requires '0' <= c <= '9'
    ensures c in "0123456789"
  {
    var digits := "0123456789";
    assert digits[c as int - '0' as int] == c;
  }

  lemma {:induction false} BulletIsMark(s: string)
    requires AfterBullet(s) != ""
    ensures var r := AfterBullet(s); s[|s| - |r|..] == r && IsMark(s[..|s| - |r|])
  {
    if s[0] == '-' || s[0] == '*' {
      assert s[..1] == [s[0]];
    } else {
      var digits := SkipDigits(s);
      var n := |s| - |digits|;
      SkippedDigits(s);
      assert s[..n + 1][..n] == s[..n] && s[n] == digits[0];
    }
  }

  lemma Assembled(line: string, s: string, after: string, rest: string)
    requires |rest| < |after| <= |s| <= |line|
    requires line[|line| - |s|..] == s && s[|s| - |after|..] == after && after[|after| - |rest|..] == rest
    ensures line == line[..|line| - |s|] + (s[..|s| - |after|] + (after[..|after| - |rest|] + rest))
  {
  }

  lemma {:induction false} SkipShrinks(s: string)
    requires s != "" && IsMarkerSpace(s[0])
    ensures |SkipMarkerSpace(s)| < |s|
  {
  }

  lemma {:induction false} StrippedIsMarked(line: string, s: string, after: string)
    requires s == SkipMarkerSpace(line) && after == AfterBullet(s) && after != "" && IsMarkerSpace(after[0])
    ensures var rest := SkipMarkerSpace(after);
            Marked(line, line[..|line| - |s|], s[..|s| - |after|], after[..|after| - |rest|], rest)
  {
    var rest := SkipMarkerSpace(after);
    SkippedBlanks(line);
    BulletIsMark(s);
    SkippedBlanks(after);
    SkipShrinks(after);
    Assembled(line, s, after, rest);
  }

  lemma MarkedChanges(line: string, lead: string, mark: string, gap: string, rest: string)
    requires Marked(line, lead, mark, gap, rest)
    ensures StripMarker(line) != line
  {
    MarkIsStripped(line, lead, mark, gap, rest);
    assert |line| == |lead| + |mark| + |gap| + |rest|;
  }

  /** A line is changed exactly when it starts with a marker. */
  lemma {:induction false} StripMarkerExactly(line: string)
    ensures StripMarker(line) != line <==> exists lead, mark, gap, rest :: Marked(line, lead, mark, gap, rest)
  {
    if StripMarker(line) != line {
      StrippedIsMarked(line, SkipMarkerSpace(line), AfterBullet(SkipMarkerSpace(line)));
    }
    if lead, mark, gap, rest :| Marked(line, lead, mark, gap, rest) {
      MarkedChanges(line, lead, mark, gap, rest);
    }
  }

  // --- Trimming ---

  predicate AllSpace(s: string) {
    forall c :: c in s ==> IsSpace(c)
  }

  lemma {:induction false} TrimLeftLeaves(s: string)
    ensures var r := TrimLeft(s); s[|s| - |r|..] == r && AllSpace(s[..|s| - |r|])
    decreases |s|
  {
    if s != "" && IsSpace(s[0]) {
      var r := TrimLeft(s);
      TrimLeftLeaves(s[1..]);
      assert s[..|s| - |r|] == [s[0]] + s[1..][..|s[1..]| - |r|];
    }
  }

  lemma {:induction false} TrimEndLeaves(s: string)
    ensures var r := TrimEnd(s); s[..|r|] == r && AllSpace(s[|r|..])
    decreases |s|
  {
    if s != "" && IsSpace(s[|s| - 1]) {
      var r, n := TrimEnd(s), |s| - 1;
      TrimEndLeaves(s[..n]);
      assert s[|r|..] == s[..n][|r|..] + [s[n]];
    }
  }

  /** Trimming takes white space off both ends and nothing else. */
  lemma {:induction false} TrimSpaceExactly(s: string) returns (lead: string, tail: string)
    ensures s == lead + TrimSpace(s) + tail && AllSpace(lead) && AllSpace(tail) && Trimmed(TrimSpace(s))
  {
    TrimSpaceTrims(s);
    TrimLeftLeaves(s);
    var mid := TrimLeft(s);
    TrimEndLeaves(mid);
    lead, tail := s[..|s| - |mid|], mid[|TrimSpace(s)|..];
  }

  // --- One sub-goal for each line ---

  /** What a line holds once its marker and the white space around it are gone. */
  function Held(line: string): (r: string) {
    TrimSpace(StripMarker(line))
  }

  predicate Increasing(picks: seq<nat>) {
    forall j, k :: 0 <= j < k < |picks| ==> picks[j] < picks[k]
  }

  /** What each line holds. */
  function AllHeld(lines: seq<string>): (r: seq<string>) {
    seq(|lines|, i requires 0 <= i < |lines| => Held(lines[i]))
  }

  /** `goals` are the non-empty ones of `texts`, in order and one each; `picks` says where. */
  predicate NonEmptyOnes(texts: seq<string>, goals: seq<string>, picks: seq<nat>) {
    && |picks| == |goals| && Increasing(picks)
    && (forall k :: 0 <= k < |picks| ==> picks[k] < |texts| && goals[k] == texts[picks[k]])
    && forall i :: 0 <= i < |texts| ==> (i in picks <==> texts[i] != "")
  }

  /** `goals` are, in order and one each, what the lines that hold something hold. */
  predicate OneEach(lines: seq<string>, goals: seq<string>, picks: seq<nat>) {
    NonEmptyOnes(AllHeld(lines), goals, picks)
  }

  lemma {:induction false} NonEmptyPush(texts: seq<string>, text: string, goals: seq<string>, picks: seq<nat>)
    requires NonEmptyOnes(texts, goals, picks)
    ensures if text != "" then NonEmptyOnes(texts + [text], goals + [text], picks + [|texts|])
            else NonEmptyOnes(texts + [text], goals, picks)
  {
  }

  lemma {:induction false} OneEachPush(init: seq<string>, line: string, goals: seq<string>, picks: seq<nat>)
    requires OneEach(init, goals, picks)
    ensures if Held(line) != "" then OneEach(init + [line], goals + [Held(line)], picks + [|init|])
            else OneEach(init + [line], goals, picks)
  {
    NonEmptyPush(AllHeld(init), Held(line), goals, picks);
    assert AllHeld(init + [line]) == AllHeld(init) + [Held(line)];
  }

  lemma {:induction false} ItemsAreOneEach(lines: seq<string>) returns (picks: seq<nat>)
    ensures OneEach(lines, Items(lines), picks)
    decreases |lines|
  {
    picks := [];
    if lines != [] {
      var init, last := lines[..|lines| - 1], lines[|lines| - 1];
      picks := ItemsAreOneEach(init);
      OneEachPush(init, last, Items(init), picks);
      assert lines == init + [last];
      if Held(last) != "" {
        picks := picks + [|init|];
      }
    }
  }

  /** A goal of several lines has one sub-goal for each line that holds something, in order; if only one
      does, the goal is planned as that line. */
  lemma {:induction false} PlanOfLines(goal: string) returns (goals: seq<string>, picks: seq<nat>)
    requires '\n' in TrimSpace(goal)
    ensures OneEach(Split(TrimSpace(goal), '\n'), goals, picks) && goals != []
    ensures Plan(goal) == if |goals| == 1 then Plan(goals[0]) else goals
  {
    var text := TrimSpace(goal);
    goals := Items(Split(text, '\n'));
    picks := ItemsAreOneEach(Split(text, '\n'));
    TrimSpaceTrims(goal);
    ListIsOneLineEach(text);
    if |goals| == 1 {
      ItemsUsable(Split(text, '\n'));
      assert goals[0] in goals;
      TrimSpaceTrims(goals[0]);
    }
  }

  lemma ItemsPush(init: seq<string>, line: string)
    ensures Items(init + [line]) == if Held(line) == "" then Items(init) else Items(init) + [Held(line)]
  {
    assert (init + [line])[..|init|] == init;
  }

  lemma {:induction false} ItemsOfHeld(lines: seq<string>)
    requires "" !in AllHeld(lines)
    ensures Items(lines) == AllHeld(lines)
    decreases |lines|
  {
    if lines != [] {
      var init, last := lines[..|lines| - 1], lines[|lines| - 1];
      assert lines == init + [last] && AllHeld(lines) == AllHeld(init) + [Held(last)];
      ItemsOfHeld(init);
      ItemsPush(init, last);
    }
  }

  lemma {:induction false} JoinedLines(lines: seq<string>)
    requires lines != [] && AllUsable(lines)
    ensures Usable(Join(lines, "\n")) && Join(lines, "\n")[0] == lines[0][0]
    decreases |lines|
  {
    assert lines[0] in lines;
    if |lines| > 1 {
      JoinedLines(lines[1..]);
    }
  }

  lemma JoinBreaks(lines: seq<string>)
    requires |lines| >= 2
    ensures '\n' in Join(lines, "\n")
  {
    var text := Join(lines, "\n");
    assert "\n" == ['\n'] && text == lines[0] + ("\n" + Join(lines[1..], "\n"));
    assert text[|lines[0]|] == '\n';
  }

  lemma InkIsHeld(lines: seq<string>)
    requires AllUsable(lines) && Free('\n', lines)
    ensures forall i :: 0 <= i < |lines| ==> Held(lines[i]) != ""
  {
    forall i | 0 <= i < |lines| ensures Held(lines[i]) != "" {
      assert lines[i] in lines;
      InkIsAnItem(lines[i]);
    }
  }

  /** Round trip: a list of two or more lines, each written with its marker or without one, plans into
      exactly what the lines hold. */
  lemma {:induction false} ListRoundTrips(lines: seq<string>, goals: seq<string>)
    requires |lines| == |goals| >= 2 && AllUsable(lines) && Free('\n', lines)
    requires forall i :: 0 <= i < |lines| ==> Held(lines[i]) == goals[i]
    ensures Plan(Join(lines, "\n")) == goals
  {
    var text := Join(lines, "\n");
    JoinedLines(lines);
    TrimSpaceTrims(text);
    SplitOfJoin(lines, '\n');
    JoinBreaks(lines);
    InkIsHeld(lines);
    assert AllHeld(lines) == goals;
    ItemsOfHeld(lines);
  }

  /** In particular lines without a marker come back as they are. */
  lemma {:induction false} PlainLinesRoundTrip(lines: seq<string>)
    requires |lines| >= 2 && AllUsable(lines) && Free('\n', lines)
    requires forall line, lead, mark, gap, rest :: line in lines ==> !Marked(line, lead, mark, gap, rest)
    ensures Plan(Join(lines, "\n")) == lines
  {
    forall i | 0 <= i < |lines| ensures Held(lines[i]) == lines[i] {
      assert lines[i] in lines;
      StripMarkerExactly(lines[i]);
      TrimSpaceTrims(lines[i]);
    }
    ListRoundTrips(lines, lines);
  }

  // --- One sub-goal for each part of a sentence ---

  predicate IsSeparator(sep: string) {
    sep == " and " || sep == ", and " || sep == ";"
  }

  /** The parts of a sentence with a separator of its own after each but the last. */
  function Sentence(gs: seq<string>, seps: seq<string>): (r: string)
    requires |seps| + 1 == |gs|
  {
    if seps == [] then gs[0] else gs[0] + (seps[0] + Sentence(gs[1..], seps[1..]))
  }

  /** Parts that hold no separator; one that stands before " and " ends in no half of one either. */
  predicate Separable(gs: seq<string>, seps: seq<string>)
    requires |seps| + 1 == |gs|
  {
    && (forall g :: g in gs ==> Atomic(g))
    && forall i :: 0 <= i < |seps| ==> IsSeparator(seps[i]) && (seps[i] == " and " ==> Joinable(gs[i]))
  }

  /** The separators once ", and " is replaced. */
  function NoCommas(seps: seq<string>): (r: seq<string>)
    ensures |r| == |seps|
  {
    seq(|seps|, i requires 0 <= i < |seps| => if seps[i] == ", and " then ";" else seps[i])
  }

  lemma {:induction false} NoAndBefore(g: string, t: string, i: nat)
    requires i < |g| && !Contains(g, AND) && t != "" && t[0] !in AND
    ensures !(AND <= (g + t)[i..])
  {
    assert forall k :: 0 <= k < |AND| ==> AND[k] in AND;
    if AND <= (g + t)[i..] {
      if i + |AND| <= |g| {
        AndInside(g, t, i);
      } else {
        MatchAt(g + t, i, AND, |g| - i);
      }
    }
  }

  lemma FirstOfMatch(t: string)
    requires t != "" && AND <= t
    ensures t[0] in AND
  {
    assert t[0] == AND[0];
  }

  lemma {:induction false} NoCommaAndBefore(g: string, t: string, i: nat)
    requires i < |g| && !Contains(g, AND) && t != "" && t[0] !in AND
    ensures !(COMMA_AND <= (g + t)[i..])
  {
    assert (g + t)[|g|..] == t;
    assert !(AND <= t) by {
      if AND <= t {
        FirstOfMatch(t);
      }
    }
    if COMMA_AND <= (g + t)[i..] {
      CommaThenAnd(g + t, i);
      if i + 1 < |g| {
        NoAndBefore(g, t, i + 1);
      }
    }
  }

  /** One part and its separator, under the first replacement. */
  lemma {:induction false} CommaStep(g: string, sep: string, rest: string)
    requires Atomic(g) && IsSeparator(sep) && (sep == " and " ==> Joinable(g))
    ensures ReplaceAll(g + (sep + rest), COMMA_AND)
         == g + ((if sep == ", and " then ";" else sep) + ReplaceAll(rest, COMMA_AND))
  {
    var t := sep + rest;
    forall i | 0 <= i < |g| ensures !(COMMA_AND <= (g + t)[i..]) {
      if sep == " and " {
        NoCommaAndStartsIn(g, t, i);
      } else {
        NoCommaAndBefore(g, t, i);
      }
    }
    ReplaceSkips(g, t, COMMA_AND);
    if sep == " and " {
      NoCommaAndFrom(rest);
    } else {
      assert t[|sep|..] == rest;
    }
  }

  /** One part and its separator, under the second. */
  lemma {:induction false} AndStep(g: string, sep: string, rest: string)
    requires Atomic(g) && (sep == ";" || (sep == " and " && Joinable(g)))
    ensures ReplaceAll(g + (sep + rest), AND) == g + (";" + ReplaceAll(rest, AND))
  {
    if sep == " and " {
      AndBecomesSemicolon(g, rest);
    } else {
      var t := sep + rest;
      forall i | 0 <= i < |g| ensures !(AND <= (g + t)[i..]) {
        NoAndBefore(g, t, i);
      }
      ReplaceSkips(g, t, AND);
      assert t[1..] == rest;
    }
  }

  lemma {:induction false} LonePart(g: string)
    requires Atomic(g)
    ensures ReplaceAll(g, COMMA_AND) == g && ReplaceAll(g, AND) == g
  {
    forall i | 0 <= i < |g| ensures !(AND <= (g + "")[i..]) && !(COMMA_AND <= (g + "")[i..]) {
      NoAndStartsIn(g, "", i);
      NoCommaAndStartsIn(g, "", i);
    }
    ReplaceSkips(g, "", AND);
    ReplaceSkips(g, "", COMMA_AND);
    assert g + "" == g;
  }

  lemma {:induction false} CommasGo(gs: seq<string>, seps: seq<string>)
    requires |seps| + 1 == |gs| && Separable(gs, seps)
    ensures ReplaceAll(Sentence(gs, seps), COMMA_AND) == Sentence(gs, NoCommas(seps))
    decreases |gs|
  {
    assert gs[0] in gs;
    if seps == [] {
      LonePart(gs[0]);
    } else {
      CommasGo(gs[1..], seps[1..]);
      CommaStep(gs[0], seps[0], Sentence(gs[1..], seps[1..]));
      assert NoCommas(seps)[1..] == NoCommas(seps[1..]);
    }
  }

  lemma {:induction false} AndsGo(gs: seq<string>, seps: seq<string>)
    requires |seps| + 1 == |gs| && (forall g :: g in gs ==> Atomic(g))
    requires forall i :: 0 <= i < |seps| ==> seps[i] == ";" || (seps[i] == " and " && Joinable(gs[i]))
    ensures ReplaceAll(Sentence(gs, seps), AND) == Join(gs, ";")
    decreases |gs|
  {
    assert gs[0] in gs;
    if seps == [] {
      LonePart(gs[0]);
    } else {
      AndsGo(gs[1..], seps[1..]);
      AndStep(gs[0], seps[0], Sentence(gs[1..], seps[1..]));
      JoinFirst(gs, ";");
    }
  }

  lemma {:induction false} SentenceIsUsable(gs: seq<string>, seps: seq<string>)
    requires |seps| + 1 == |gs| && Separable(gs, seps)
    ensures var goal := Sentence(gs, seps); gs[0] != "" && Usable(goal) && goal[0] == gs[0][0] && '\n' !in goal
    decreases |gs|
  {
    assert gs[0] in gs;
    if seps != [] {
      SentenceIsUsable(gs[1..], seps[1..]);
    }
  }

  /** A sentence plans into its parts, whichever of the three separators stands between each two. */
  lemma {:induction false} SentenceRoundTrips(gs: seq<string>, seps: seq<string>)
    requires |seps| + 1 == |gs| && Separable(gs, seps)
    ensures Plan(Sentence(gs, seps)) == gs
  {
    SentenceIsUsable(gs, seps);
    TrimSpaceTrims(Sentence(gs, seps));
    CommasGo(gs, seps);
    AndsGo(gs, NoCommas(seps));
    SplitOfJoin(gs, ';');
    CleanKeepsAtomic(gs);
    assert ";" == [';'];
  }
}
