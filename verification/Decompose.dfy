/** Goal splitting and lossless batching: decomposePlan, splitConjuncts and clampSubGoals
    (cmd/nilcore/decompose.go). Text is a sequence of Unicode scalar values. */
module Decompose {
  import opened Text

  const AND := " and "
  const COMMA_AND := ", and "

  // --- The string operations the planner is built from ---

  /** White space as the list-marker expression sees it. */
  predicate IsMarkerSpace(c: char) {
    c == ' ' || c == '\t' || c == '\n' || c == '\r' || c as int == 0x0C
  }

  function TrimDots(s: string): (r: string)
    ensures |r| <= |s|
  {
    if s != "" && s[|s| - 1] == '.' then TrimDots(s[..|s| - 1]) else s
  }

  function SkipMarkerSpace(s: string): (r: string)
    ensures |r| <= |s|
  {
    if s != "" && IsMarkerSpace(s[0]) then SkipMarkerSpace(s[1..]) else s
  }

  function SkipDigits(s: string): (r: string)
    ensures |r| <= |s|
  {
    if s != "" && '0' <= s[0] <= '9' then SkipDigits(s[1..]) else s
  }

  /** What follows a bullet or a number at the start of `s`; nothing when there is none. */
  function AfterBullet(s: string): (r: string)
    ensures |r| <= |s|
  {
    var digits := SkipDigits(s);
    if s == "" then ""
    else if s[0] == '-' || s[0] == '*' then s[1..]
    else if |digits| < |s| && digits != "" && (digits[0] == '.' || digits[0] == ')') then digits[1..]
    else ""
  }

  /** Removes one leading list marker ("1.", "2)", "-", "*") with the white space around it. */
  function StripMarker(line: string): (r: string)
    ensures |r| <= |line|
  {
    var rest := AfterBullet(SkipMarkerSpace(line));
    if rest != "" && IsMarkerSpace(rest[0]) then SkipMarkerSpace(rest) else line
  }

  /** Every leftmost, non-overlapping `pat` becomes ';'. */
  function ReplaceAll(s: string, pat: string): (r: string)
    requires pat != ""
    decreases |s|
  {
    if s == "" then ""
    else if pat <= s then ";" + ReplaceAll(s[|pat|..], pat)
    else [s[0]] + ReplaceAll(s[1..], pat)
  }

  // --- The plan ---

  function SplitConjuncts(s: string): (r: seq<string>) {
    Split(ReplaceAll(ReplaceAll(s, COMMA_AND), AND), ';')
  }

  /** The trimmed, non-empty lines without their list markers. */
  function Items(lines: seq<string>): (r: seq<string>) {
    if lines == [] then []
    else
      var item := TrimSpace(StripMarker(lines[|lines| - 1]));
      Items(lines[..|lines| - 1]) + (if item == "" then [] else [item])
  }

  function Clean(parts: seq<string>): (r: seq<string>) {
    if parts == [] then []
    else
      var part := TrimSpace(TrimDots(parts[|parts| - 1]));
      Clean(parts[..|parts| - 1]) + (if part == "" then [] else [part])
  }

  function PlanLine(goal: string): (r: seq<string>) {
    var out := Clean(SplitConjuncts(goal));
    if out == [] then [goal] else out
  }

  function Plan(goal: string): (r: seq<string>) {
    var trimmed := TrimSpace(goal);
    var items := if '\n' in trimmed then Items(Split(trimmed, '\n')) else [];
    if trimmed == "" then []
    else if |items| > 1 then items
    else PlanLine(if |items| == 1 then items[0] else trimmed)
  }

  method ListItems(lines: seq<string>) returns (subs: seq<string>)
    ensures subs == Items(lines)
  {
    var i := 0;
    subs := [];
    while i < |lines|
      invariant 0 <= i <= |lines| && subs == Items(lines[..i])
    {
      assert lines[..i + 1][..i] == lines[..i];
      var item := TrimSpace(StripMarker(lines[i]));
      if item != "" {
        subs := subs + [item];
      }
      i := i + 1;
    }
    assert lines[..i] == lines;
  }

  method CleanParts(parts: seq<string>) returns (out: seq<string>)
    ensures out == Clean(parts)
  {
    var i := 0;
    out := [];
    while i < |parts|
      invariant 0 <= i <= |parts| && out == Clean(parts[..i])
    {
      assert parts[..i + 1][..i] == parts[..i];
      var part := TrimSpace(TrimDots(parts[i]));
      if part != "" {
        out := out + [part];
      }
      i := i + 1;
    }
    assert parts[..i] == parts;
  }

  method DecomposePlan(goal: string) returns (subs: seq<string>)
    ensures subs == Plan(goal)
  {
    var text := TrimSpace(goal);
    if text == "" {
      return [];
    }
    if '\n' in text {
      var items := ListItems(Split(text, '\n'));
      if |items| > 1 {
        return items;
      }
      if |items| == 1 {
        text := items[0];
      }
    }
    var out := CleanParts(SplitConjuncts(text));
    return if out == [] then [text] else out;
  }

  /** clampSubGoals: the overflow is batched into the last child. */
  function Clamp(subs: seq<string>, max: int): (r: seq<string>) {
    if max <= 0 || |subs| <= max then subs else subs[..max - 1] + [Join(subs[max - 1..], AND)]
  }

  // --- Every goal yields usable sub-goals ---

  predicate Usable(s: string) {
    s != "" && Trimmed(s)
  }

  predicate AllUsable(gs: seq<string>) {
    forall g :: g in gs ==> Usable(g)
  }

  lemma {:induction false} ItemsUsable(lines: seq<string>)
    ensures AllUsable(Items(lines))
    decreases |lines|
  {
    if lines != [] {
      ItemsUsable(lines[..|lines| - 1]);
      TrimSpaceTrims(StripMarker(lines[|lines| - 1]));
    }
  }

  lemma {:induction false} CleanUsable(parts: seq<string>)
    ensures AllUsable(Clean(parts))
    decreases |parts|
  {
    if parts != [] {
      CleanUsable(parts[..|parts| - 1]);
      TrimSpaceTrims(TrimDots(parts[|parts| - 1]));
    }
  }

  lemma {:induction false} PlanLineUsable(goal: string)
    requires Usable(goal)
    ensures PlanLine(goal) != [] && AllUsable(PlanLine(goal))
  {
    CleanUsable(SplitConjuncts(goal));
  }

  /** A goal has sub-goals exactly when it is not blank, and every one is non-empty and trimmed. */
  lemma {:induction false} PlanIsUsable(goal: string)
    ensures Plan(goal) == [] <==> TrimSpace(goal) == ""
    ensures AllUsable(Plan(goal))
  {
    var trimmed := TrimSpace(goal);
    TrimSpaceTrims(goal);
    if trimmed != "" {
      var items := if '\n' in trimmed then Items(Split(trimmed, '\n')) else [];
      ItemsUsable(Split(trimmed, '\n'));
      if |items| == 1 {
        assert items[0] in items;
        PlanLineUsable(items[0]);
      } else if |items| == 0 {
        PlanLineUsable(trimmed);
      }
    }
  }

  // --- Re-splitting a batch ---

  predicate Contains(s: string, pat: string) {
    exists i :: 0 <= i <= |s| && pat <= s[i..]
  }

  predicate EndsWith(s: string, tail: string) {
    |tail| <= |s| && s[|s| - |tail|..] == tail
  }

  /** A sub-goal that survives a batch wherever it stands, and one that survives with another after it. */
  predicate Atomic(g: string) {
    Usable(g) && '\n' !in g && ';' !in g && !Contains(g, AND) && g[|g| - 1] != '.'
  }

  predicate Joinable(g: string) {
    Atomic(g) && g[|g| - 1] != ',' && !EndsWith(g, " and")
  }

  predicate Batchable(gs: seq<string>) {
    && (forall g :: g in gs ==> Atomic(g))
    && forall i :: 0 <= i < |gs| - 1 ==> Joinable(gs[i])
  }

  /** Text before which no `pat` can start is copied. */
  lemma {:induction false} ReplaceSkips(g: string, t: string, pat: string)
    requires pat != "" && forall i :: 0 <= i < |g| ==> !(pat <= (g + t)[i..])
    ensures ReplaceAll(g + t, pat) == g + ReplaceAll(t, pat)
    decreases |g|
  {
    if g == "" {
      assert g + t == t;
    } else {
      var s := g + t;
      assert s[0..] == s && s[1..] == g[1..] + t;
      forall i | 0 <= i < |g[1..]| ensures !(pat <= (g[1..] + t)[i..]) {
        assert (g[1..] + t)[i..] == s[i + 1..];
      }
      ReplaceSkips(g[1..], t, pat);
      assert [g[0]] + (g[1..] + ReplaceAll(t, pat)) == g + ReplaceAll(t, pat);
    }
  }

  lemma MatchAt(s: string, i: nat, pat: string, j: nat)
    requires i <= |s| && pat <= s[i..] && j < |pat|
    ensures i + j < |s| && s[i + j] == pat[j]
  {
  }

  lemma AndInside(g: string, t: string, i: nat)
    requires i + |AND| <= |g| && AND <= (g + t)[i..]
    ensures Contains(g, AND)
  {
    assert (g + t)[i..][..|AND|] == AND;
    assert g[i..][..|AND|] == (g + t)[i..][..|AND|];
    assert AND <= g[i..];
  }

  lemma AndAtEnd(g: string, t: string, i: nat)
    requires i + 4 == |g| && AND <= (g + t)[i..]
    ensures EndsWith(g, " and")
  {
    assert forall j :: 0 <= j < 4 ==> g[i..][j] == (g + t)[i..][j];
  }

  lemma {:induction false} NoAndStartsIn(g: string, t: string, i: nat)
    requires i < |g| && !Contains(g, AND)
    requires t == "" || (AND <= t && !EndsWith(g, " and"))
    ensures !(AND <= (g + t)[i..])
  {
    if AND <= (g + t)[i..] {
      if i + |AND| <= |g| {
        AndInside(g, t, i);
      } else if i + 4 == |g| {
        AndAtEnd(g, t, i);
      } else {
        MatchAt(g + t, i, AND, |g| - i);
      }
    }
  }

  lemma CommaThenAnd(s: string, i: nat)
    requires i <= |s| && COMMA_AND <= s[i..]
    ensures i + 1 <= |s| && s[i] == ',' && AND <= s[i + 1..]
  {
  }

  lemma {:induction false} NoCommaAndStartsIn(g: string, t: string, i: nat)
    requires i < |g| && !Contains(g, AND) && (t == "" || (AND <= t && !EndsWith(g, " and") && g[|g| - 1] != ','))
    ensures !(COMMA_AND <= (g + t)[i..])
  {
    if COMMA_AND <= (g + t)[i..] {
      CommaThenAnd(g + t, i);
      if i + 1 < |g| {
        NoAndStartsIn(g, t, i + 1);
      }
    }
  }

  lemma {:induction false} NoCommaAndFrom(rest: string)
    ensures ReplaceAll(AND + rest, COMMA_AND) == AND + ReplaceAll(rest, COMMA_AND)
  {
    forall i | 0 <= i < |AND| ensures !(COMMA_AND <= (AND + rest)[i..]) {
      assert (AND + rest)[i..][0] == AND[i];
    }
    ReplaceSkips(AND, rest, COMMA_AND);
  }

  lemma {:induction false} NoCommaAndInBatch(gs: seq<string>)
    requires Batchable(gs)
    ensures ReplaceAll(Join(gs, AND), COMMA_AND) == Join(gs, AND)
    decreases |gs|
  {
    if gs != [] {
      var g := gs[0];
      var rest := if |gs| == 1 then "" else Join(gs[1..], AND);
      var t := if |gs| == 1 then "" else AND + rest;
      assert g in gs && Join(gs, AND) == g + t;
      forall i | 0 <= i < |g| ensures !(COMMA_AND <= (g + t)[i..]) {
        NoCommaAndStartsIn(g, t, i);
      }
      ReplaceSkips(g, t, COMMA_AND);
      if |gs| > 1 {
        NoCommaAndInBatch(gs[1..]);
        NoCommaAndFrom(rest);
        assert t == AND + ReplaceAll(rest, COMMA_AND);
      }
    }
  }

  lemma {:induction false} AndBecomesSemicolon(g: string, rest: string)
    requires !Contains(g, AND) && !EndsWith(g, " and")
    ensures ReplaceAll(g + (AND + rest), AND) == g + (";" + ReplaceAll(rest, AND))
  {
    var t := AND + rest;
    forall i | 0 <= i < |g| ensures !(AND <= (g + t)[i..]) {
      NoAndStartsIn(g, t, i);
    }
    ReplaceSkips(g, t, AND);
    assert t[|AND|..] == rest;
  }

  lemma JoinFirst(gs: seq<string>, sep: string)
    requires |gs| > 1
    ensures Join(gs, sep) == gs[0] + (sep + Join(gs[1..], sep))
  {
  }

  lemma {:induction false} BatchBecomesSemicolons(gs: seq<string>)
    requires Batchable(gs)
    ensures ReplaceAll(Join(gs, AND), AND) == Join(gs, ";")
    decreases |gs|
  {
    if |gs| == 1 {
      assert gs[0] in gs && gs[0] + "" == gs[0];
      forall i | 0 <= i < |gs[0]| ensures !(AND <= (gs[0] + "")[i..]) {
        NoAndStartsIn(gs[0], "", i);
      }
      ReplaceSkips(gs[0], "", AND);
    } else if gs != [] {
      assert gs[0] in gs;
      BatchBecomesSemicolons(gs[1..]);
      JoinFirst(gs, AND);
      JoinFirst(gs, ";");
      AndBecomesSemicolon(gs[0], Join(gs[1..], AND));
    }
  }

  lemma {:induction false} AtomicIsClean(g: string)
    requires Atomic(g)
    ensures TrimSpace(TrimDots(g)) == g && g != ""
  {
  }

  lemma {:induction false} CleanKeepsAtomic(gs: seq<string>)
    requires forall g :: g in gs ==> Atomic(g)
    ensures Clean(gs) == gs
    decreases |gs|
  {
    if gs != [] {
      var init, last := gs[..|gs| - 1], gs[|gs| - 1];
      CleanKeepsAtomic(init);
      assert last in gs && gs == init + [last];
      AtomicIsClean(last);
    }
  }

  lemma {:induction false} JoinUsable(gs: seq<string>)
    requires gs != [] && AllUsable(gs)
    ensures Usable(Join(gs, AND)) && Join(gs, AND)[0] == gs[0][0]
    decreases |gs|
  {
    assert gs[0] in gs;
    if |gs| > 1 {
      JoinUsable(gs[1..]);
    }
  }

  lemma {:induction false} BatchResplits(gs: seq<string>)
    requires gs != [] && Batchable(gs)
    ensures Plan(Join(gs, AND)) == gs
  {
    JoinUsable(gs);
    TrimSpaceTrims(Join(gs, AND));
    CharInJoin(gs, AND, '\n');
    NoCommaAndInBatch(gs);
    BatchBecomesSemicolons(gs);
    SplitOfJoin(gs, ';');
    CleanKeepsAtomic(gs);
  }

  // --- Sub-goals are single lines ---

  lemma {:induction false} TrimLeftAdds(s: string, c: char)
    requires c !in s
    ensures c !in TrimLeft(s)
    decreases |s|
  {
    if s != "" && IsSpace(s[0]) {
      TrimLeftAdds(s[1..], c);
    }
  }

  lemma {:induction false} TrimDotsAdds(s: string, c: char)
    requires c !in s
    ensures c !in TrimDots(s)
    decreases |s|
  {
    if s != "" && s[|s| - 1] == '.' {
      TrimDotsAdds(s[..|s| - 1], c);
    }
  }

  lemma {:induction false} TrimAdds(s: string, c: char)
    requires c !in s
    ensures c !in TrimSpace(s)
  {
    TrimLeftAdds(s, c);
    TrimEndTrims(TrimLeft(s));
  }

  predicate Suffix(r: string, s: string) {
    |r| <= |s| && s[|s| - |r|..] == r
  }

  lemma RestIsSuffix(s: string)
    requires s != ""
    ensures Suffix(s[1..], s) && Suffix(s, s)
  {
  }

  lemma {:induction false} SkipIsSuffix(s: string)
    ensures Suffix(SkipMarkerSpace(s), s) && Suffix(SkipDigits(s), s)
    decreases |s|
  {
    if s != "" {
      RestIsSuffix(s);
      SkipIsSuffix(s[1..]);
      SuffixOfSuffix(SkipMarkerSpace(s[1..]), s[1..], s);
      SuffixOfSuffix(SkipDigits(s[1..]), s[1..], s);
    }
  }

  lemma SuffixOfSuffix(r: string, s: string, t: string)
    requires Suffix(r, s) && Suffix(s, t)
    ensures Suffix(r, t) && (r != "" ==> r[|r| - 1] == t[|t| - 1])
  {
  }

  lemma EmptyIsSuffix(s: string)
    ensures Suffix("", s)
  {
  }

  lemma {:induction false} NumberIsSuffix(s: string)
    ensures SkipDigits(s) != "" ==> Suffix(SkipDigits(s)[1..], s)
  {
    var digits := SkipDigits(s);
    SkipIsSuffix(s);
    if digits != "" {
      RestIsSuffix(digits);
      SuffixOfSuffix(digits[1..], digits, s);
    }
  }

  lemma {:induction false} AfterBulletIsSuffix(s: string)
    ensures Suffix(AfterBullet(s), s)
  {
    EmptyIsSuffix(s);
    NumberIsSuffix(s);
    if s != "" {
      RestIsSuffix(s);
    }
  }

  /** What a list marker leaves is the end of its line, and never nothing when that is no white space. */
  lemma {:induction false} StripIsSuffix(line: string)
    ensures Suffix(StripMarker(line), line)
    ensures line != "" && !IsSpace(line[|line| - 1]) ==> StripMarker(line) != ""
  {
    var s := SkipMarkerSpace(line);
    var rest := AfterBullet(s);
    SkipIsSuffix(line);
    AfterBulletIsSuffix(s);
    SuffixOfSuffix(rest, s, line);
    SkipIsSuffix(rest);
    SuffixOfSuffix(SkipMarkerSpace(rest), rest, line);
    SkipKeepsEnd(rest);
  }

  lemma {:induction false} SkipKeepsEnd(s: string)
    ensures s != "" && !IsSpace(s[|s| - 1]) ==> SkipMarkerSpace(s) != ""
    decreases |s|
  {
    if s != "" && IsMarkerSpace(s[0]) {
      SkipKeepsEnd(s[1..]);
    }
  }

  lemma {:induction false} ReplaceAdds(s: string, pat: string, c: char)
    requires pat != "" && c !in s && c != ';'
    ensures c !in ReplaceAll(s, pat)
    decreases |s|
  {
    if s != "" {
      if pat <= s {
        ReplaceAdds(s[|pat|..], pat, c);
      } else {
        ReplaceAdds(s[1..], pat, c);
      }
    }
  }

  lemma {:induction false} ItemsFree(lines: seq<string>, c: char)
    requires Free(c, lines)
    ensures Free(c, Items(lines))
    decreases |lines|
  {
    if lines != [] {
      var last := lines[|lines| - 1];
      ItemsFree(lines[..|lines| - 1], c);
      StripIsSuffix(last);
      assert last in lines;
      TrimAdds(StripMarker(last), c);
    }
  }

  lemma {:induction false} CleanFree(parts: seq<string>, c: char)
    requires Free(c, parts)
    ensures Free(c, Clean(parts))
    decreases |parts|
  {
    if parts != [] {
      var last := parts[|parts| - 1];
      CleanFree(parts[..|parts| - 1], c);
      assert last in parts;
      TrimDotsAdds(last, c);
      TrimAdds(TrimDots(last), c);
    }
  }

  lemma {:induction false} PlanLineIsOneLine(goal: string)
    requires '\n' !in goal
    ensures Free('\n', PlanLine(goal))
  {
    ReplaceAdds(goal, COMMA_AND, '\n');
    ReplaceAdds(ReplaceAll(goal, COMMA_AND), AND, '\n');
    SplitFrees(ReplaceAll(ReplaceAll(goal, COMMA_AND), AND), ';', '\n');
    CleanFree(SplitConjuncts(goal), '\n');
  }

  lemma {:induction false} InkIsAnItem(line: string)
    requires line != "" && !IsSpace(line[|line| - 1])
    ensures TrimSpace(StripMarker(line)) != ""
  {
    StripIsSuffix(line);
    SuffixOfSuffix(StripMarker(line), line, line);
    KeepsInk(StripMarker(line));
  }

  lemma {:induction false} LastLineIsAnItem(text: string)
    requires text != "" && !IsSpace(text[|text| - 1])
    ensures Items(Split(text, '\n')) != []
  {
    var lines := Split(text, '\n');
    SplitEnd(text, '\n');
    InkIsAnItem(lines[|lines| - 1]);
  }

  lemma {:induction false} KeepsInk(s: string)
    requires s != "" && !IsSpace(s[|s| - 1])
    ensures TrimSpace(s) != ""
    decreases |s|
  {
    if IsSpace(s[0]) {
      KeepsInk(s[1..]);
    }
  }

  lemma {:induction false} ListIsOneLineEach(text: string)
    requires Usable(text)
    ensures var items := Items(Split(text, '\n'));
            items != [] && Free('\n', items) && Free('\n', PlanLine(items[0]))
  {
    var items := Items(Split(text, '\n'));
    SplitFrees(text, '\n', '\n');
    ItemsFree(Split(text, '\n'), '\n');
    LastLineIsAnItem(text);
    assert items[0] in items;
    PlanLineIsOneLine(items[0]);
  }

  lemma {:induction false} PlanIsOneLine(goal: string)
    ensures Free('\n', Plan(goal))
  {
    var trimmed := TrimSpace(goal);
    TrimSpaceTrims(goal);
    if trimmed != "" {
      if '\n' in trimmed {
        ListIsOneLineEach(trimmed);
      } else {
        PlanLineIsOneLine(trimmed);
      }
    }
  }

  // --- Nothing less than Batchable survives ---

  function Semis(s: string): (n: nat) {
    if s == "" then 0 else (if s[0] == ';' then 1 else 0) + Semis(s[1..])
  }

  function Matches(s: string, pat: string): (n: nat)
    requires pat != ""
    decreases |s|
  {
    if s == "" then 0 else if pat <= s then 1 + Matches(s[|pat|..], pat) else Matches(s[1..], pat)
  }

  function Letters(gs: seq<string>): (n: nat) {
    if gs == [] then 0 else |gs[|gs| - 1]| + Letters(gs[..|gs| - 1])
  }

  lemma {:induction false} SemisSkip(s: string, n: nat)
    requires n <= |s| && forall i :: 0 <= i < n ==> s[i] != ';'
    ensures Semis(s) == Semis(s[n..])
    decreases n
  {
    if n > 0 {
      SemisSkip(s[1..], n - 1);
      assert s[1..][n - 1..] == s[n..];
    } else {
      assert s[0..] == s;
    }
  }

  lemma {:induction false} ReplaceSizes(s: string, pat: string)
    requires pat != "" && ';' !in pat
    ensures |ReplaceAll(s, pat)| + (|pat| - 1) * Matches(s, pat) == |s|
    ensures Semis(ReplaceAll(s, pat)) == Semis(s) + Matches(s, pat)
    decreases |s|
  {
    if s != "" {
      if pat <= s {
        var rest := s[|pat|..];
        ReplaceSizes(rest, pat);
        assert forall i :: 0 <= i < |pat| ==> s[i] == pat[i];
        SemisSkip(s, |pat|);
        assert (";" + ReplaceAll(rest, pat))[1..] == ReplaceAll(rest, pat);
        assert (|pat| - 1) * (1 + Matches(rest, pat)) == |pat| - 1 + (|pat| - 1) * Matches(rest, pat);
      } else {
        ReplaceSizes(s[1..], pat);
        assert ([s[0]] + ReplaceAll(s[1..], pat))[1..] == ReplaceAll(s[1..], pat);
      }
    }
  }

  lemma {:induction false} LettersPush(gs: seq<string>, g: string)
    ensures Letters(gs + [g]) == Letters(gs) + |g|
  {
  }

  lemma {:induction false} LettersFront(g: string, gs: seq<string>)
    ensures Letters([g] + gs) == |g| + Letters(gs)
    decreases |gs|
  {
    if gs != [] {
      var init := gs[..|gs| - 1];
      LettersFront(g, init);
      assert [g] + gs == ([g] + init) + [gs[|gs| - 1]];
      LettersPush([g] + init, gs[|gs| - 1]);
    } else {
      assert [g] + gs == [] + [g];
      LettersPush([], g);
    }
  }

  lemma {:induction false} SplitSizes(s: string)
    ensures |Split(s, ';')| == Semis(s) + 1 && Letters(Split(s, ';')) + Semis(s) == |s|
    decreases |s|
  {
    if s == "" {
      LettersFront("", []);
      assert [""] + [] == [""];
    } else {
      var rest := Split(s[1..], ';');
      SplitSizes(s[1..]);
      assert rest == [rest[0]] + rest[1..];
      LettersFront(rest[0], rest[1..]);
      LettersFront("", rest);
      LettersFront([s[0]] + rest[0], rest[1..]);
    }
  }

  lemma {:induction false} JoinSizes(gs: seq<string>)
    requires gs != []
    ensures |Join(gs, AND)| == Letters(gs) + |AND| * (|gs| - 1)
    decreases |gs|
  {
    assert gs == [gs[0]] + gs[1..];
    LettersFront(gs[0], gs[1..]);
    if |gs| > 1 {
      JoinSizes(gs[1..]);
    }
  }

  /** No more parts and no more letters; as many of both only if nothing changed. */
  predicate Shrinks(all: seq<string>, out: seq<string>) {
    && |out| <= |all| && Letters(out) <= Letters(all)
    && (|out| == |all| && Letters(out) == Letters(all) ==> out == all)
  }

  lemma {:induction false} SizesPush(kept: seq<string>, part: string, init: seq<string>, last: string)
    requires Shrinks(init, kept) && |part| <= |last| && (|part| == |last| ==> part == last)
    ensures Shrinks(init + [last], kept + (if part == "" then [] else [part]))
  {
    LettersPush(kept, part);
    LettersPush(init, last);
    assert kept + [] == kept;
  }

  lemma {:induction false} TidySize(s: string)
    ensures var part := TrimSpace(TrimDots(s)); |part| <= |s| && (|part| == |s| ==> part == s)
  {
    if |TrimSpace(TrimDots(s))| == |s| {
      SameSizeSameText(s);
    }
  }

  lemma {:induction false} CleanPush(init: seq<string>, last: string)
    ensures var part := TrimSpace(TrimDots(last));
            Clean(init + [last]) == Clean(init) + (if part == "" then [] else [part])
  {
    assert (init + [last])[..|init|] == init;
  }

  lemma {:induction false} CleanSizesPush(init: seq<string>, last: string)
    requires Shrinks(init, Clean(init))
    ensures Shrinks(init + [last], Clean(init + [last]))
  {
    TidySize(last);
    CleanPush(init, last);
    SizesPush(Clean(init), TrimSpace(TrimDots(last)), init, last);
  }

  /** Cleaning never grows a split; one it does not shrink it does not change. */
  lemma {:induction false} CleanSizes(parts: seq<string>)
    ensures Shrinks(parts, Clean(parts))
    decreases |parts|
  {
    if parts != [] {
      var init, last := parts[..|parts| - 1], parts[|parts| - 1];
      CleanSizes(init);
      CleanSizesPush(init, last);
      assert parts == init + [last];
    }
  }

  lemma {:induction false} SameSizeSameText(s: string)
    requires |TrimSpace(TrimDots(s))| == |s|
    ensures TrimSpace(TrimDots(s)) == s && (s != "" ==> s[|s| - 1] != '.')
  {
  }

  lemma NoSemis(s: string)
    requires ';' !in s
    ensures Semis(s) == 0
  {
  }

  lemma {:induction false} BreakSizes(s: string)
    requires ';' !in s
    ensures var parts, commas := SplitConjuncts(s), Matches(s, COMMA_AND);
            var ands := Matches(ReplaceAll(s, COMMA_AND), AND);
            |parts| == commas + ands + 1 && Letters(parts) + 6 * commas + 5 * ands == |s|
  {
    var r := ReplaceAll(s, COMMA_AND);
    NoSemis(s);
    ReplaceSizes(s, COMMA_AND);
    assert |r| + 5 * Matches(s, COMMA_AND) == |s|;
    ReplaceSizes(r, AND);
    assert |ReplaceAll(r, AND)| + 4 * Matches(r, AND) == |r|;
    SplitSizes(ReplaceAll(r, AND));
  }

  /** A cleaned split that comes out as what was joined had exactly one break per join, all of them " and ". */
  lemma {:induction false} ExactBreaks(gs: seq<string>)
    requires gs != [] && Free(';', gs) && Clean(SplitConjuncts(Join(gs, AND))) == gs
    ensures Matches(Join(gs, AND), COMMA_AND) == 0
    ensures SplitConjuncts(Join(gs, AND)) == gs
  {
    var s := Join(gs, AND);
    CharInJoin(gs, AND, ';');
    JoinSizes(gs);
    BreakSizes(s);
    CleanSizes(SplitConjuncts(s));
  }

  lemma {:induction false} NoMatchNoChange(s: string, pat: string)
    requires pat != "" && Matches(s, pat) == 0
    ensures ReplaceAll(s, pat) == s && !Contains(s, pat)
    decreases |s|
  {
    if s != "" {
      NoMatchNoChange(s[1..], pat);
      forall i | 0 <= i <= |s| ensures !(pat <= s[i..]) {
        assert s[0..] == s;
        assert i > 0 ==> s[i..] == s[1..][i - 1..];
      }
    }
  }

  /** The first part of a split ends no later than the first match. */
  lemma {:induction false} FirstPartStops(s: string, pat: string, i: nat)
    requires pat != "" && i < |s| && pat <= s[i..]
    ensures |Split(ReplaceAll(s, pat), ';')[0]| <= i
    decreases |s|
  {
    assert s[0..] == s;
    if pat <= s {
      assert ReplaceAll(s, pat)[0] == ';';
    } else {
      assert s[i..] == s[1..][i - 1..];
      FirstPartStops(s[1..], pat, i - 1);
      assert ReplaceAll(s, pat)[1..] == ReplaceAll(s[1..], pat);
    }
  }

  lemma StartsInside(g: string, t: string, i: nat)
    requires i <= |g| && AND <= g[i..]
    ensures i < |g| && AND <= (g + t)[i..]
  {
  }

  lemma StartsAtEnd(g: string, t: string)
    requires EndsWith(g, " and") && AND <= t
    ensures |g| >= 4 && AND <= (g + t)[|g| - 4..]
  {
  }

  lemma {:induction false} FirstIsWhole(g: string, t: string)
    requires Split(ReplaceAll(g + t, AND), ';')[0] == g && (t == "" || AND <= t)
    ensures forall i :: 0 <= i < |g| ==> !(AND <= (g + t)[i..])
    ensures !Contains(g, AND) && (t != "" ==> !EndsWith(g, " and"))
  {
    forall i | 0 <= i < |g| ensures !(AND <= (g + t)[i..]) {
      if AND <= (g + t)[i..] {
        FirstPartStops(g + t, AND, i);
      }
    }
    if i :| 0 <= i <= |g| && AND <= g[i..] {
      StartsInside(g, t, i);
    }
    if t != "" && EndsWith(g, " and") {
      StartsAtEnd(g, t);
    }
  }

  lemma {:induction false} SplitAfterFirst(g: string, rest: string)
    requires ';' !in g && forall i :: 0 <= i < |g| ==> !(AND <= (g + (AND + rest))[i..])
    ensures Split(ReplaceAll(g + (AND + rest), AND), ';') == [g] + Split(ReplaceAll(rest, AND), ';')
  {
    ReplaceSkips(g, AND + rest, AND);
    var tail := ";" + ReplaceAll(rest, AND);
    assert (AND + rest)[|AND|..] == rest && ReplaceAll(AND + rest, AND) == tail;
    SplitPlain(g, ';', tail);
    assert tail[1..] == ReplaceAll(rest, AND) && Split(tail, ';') == [""] + Split(tail[1..], ';');
    assert g + "" == g;
  }

  lemma {:induction false} ExactSplitIsJoinable(gs: seq<string>)
    requires gs != [] && Free(';', gs) && Split(ReplaceAll(Join(gs, AND), AND), ';') == gs
    ensures forall g :: g in gs ==> !Contains(g, AND)
    ensures forall i :: 0 <= i < |gs| - 1 ==> !EndsWith(gs[i], " and")
    decreases |gs|
  {
    var g := gs[0];
    var rest := if |gs| == 1 then "" else Join(gs[1..], AND);
    var t := if |gs| == 1 then "" else AND + rest;
    assert g in gs && Join(gs, AND) == g + t;
    FirstIsWhole(g, t);
    assert gs == [g] + gs[1..];
    if |gs| > 1 {
      SplitAfterFirst(g, rest);
      assert gs[1..] == Split(ReplaceAll(rest, AND), ';');
      ExactSplitIsJoinable(gs[1..]);
      assert forall i :: 1 <= i < |gs| - 1 ==> gs[i] == gs[1..][i - 1];
    }
  }

  lemma {:induction false} CommaMeetsAnd(gs: seq<string>, i: nat)
    requires i < |gs| - 1 && gs[i] != "" && gs[i][|gs[i]| - 1] == ','
    ensures Contains(Join(gs, AND), COMMA_AND)
    decreases |gs|
  {
    var s, g, rest := Join(gs, AND), gs[0], Join(gs[1..], AND);
    assert s == g + AND + rest;
    if i == 0 {
      assert COMMA_AND <= s[|g| - 1..];
    } else {
      CommaMeetsAnd(gs[1..], i - 1);
      var j :| 0 <= j <= |rest| && COMMA_AND <= rest[j..];
      assert s[|g| + |AND| + j..] == rest[j..];
    }
  }

  lemma {:induction false} CleanedEnds(gs: seq<string>)
    requires Clean(gs) == gs
    ensures forall g :: g in gs && g != "" ==> g[|g| - 1] != '.'
    decreases |gs|
  {
    if gs != [] {
      var init, last := gs[..|gs| - 1], gs[|gs| - 1];
      CleanSizes(init);
      assert gs == init + [last];
      assert Clean(init) == init && TrimSpace(TrimDots(last)) == last;
      CleanedEnds(init);
      SameSizeSameText(last);
    }
  }

  /** Batching is lossless exactly for such sub-goals: a batch of two or more planned again gives them
      back if and only if each is a usable single line without ';' or " and " that does not end in '.',
      and none but the last ends in ',' or " and". */
  lemma {:induction false} BatchResplitsExactly(gs: seq<string>)
    requires |gs| >= 2
    ensures Plan(Join(gs, AND)) == gs <==> Batchable(gs)
  {
    var s := Join(gs, AND);
    if Batchable(gs) {
      BatchResplits(gs);
    }
    if Plan(s) == gs {
      PlanIsUsable(s);
      PlanIsOneLine(s);
      JoinUsable(gs);
      TrimSpaceTrims(s);
      CharInJoin(gs, AND, '\n');
      SplitFrees(ReplaceAll(ReplaceAll(s, COMMA_AND), AND), ';', ';');
      CleanFree(SplitConjuncts(s), ';');
      ExactBreaks(gs);
      NoMatchNoChange(s, COMMA_AND);
      ExactSplitIsJoinable(gs);
      CleanedEnds(gs);
      forall i | 0 <= i < |gs| - 1 ensures Joinable(gs[i]) {
        assert gs[i] in gs;
        if gs[i][|gs[i]| - 1] == ',' {
          CommaMeetsAnd(gs, i);
        }
      }
    }
  }

  /** clampSubGoals: exactly min(len, max) children, the first max - 1 as they were, and the last one
      plans back into the rest exactly when the rest is batchable. */
  lemma {:induction false} ClampDropsNoWork(subs: seq<string>, max: int)
    requires 0 < max < |subs|
    ensures |Clamp(subs, max)| == max && Clamp(subs, max)[..max - 1] == subs[..max - 1]
    ensures subs[..max - 1] + Plan(Clamp(subs, max)[max - 1]) == subs <==> Batchable(subs[max - 1..])
  {
    var rest := subs[max - 1..];
    BatchResplitsExactly(rest);
    assert subs == subs[..max - 1] + rest;
    var again := Plan(Join(rest, AND));
    if subs[..max - 1] + again == subs {
      assert (subs[..max - 1] + again)[max - 1..] == again;
    }
  }
}
