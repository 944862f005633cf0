/** Splitting, joining and trimming text. */
module Text {

  function Split(s: string, c: char): (r: seq<string>)
    ensures r != []
  {
    if s == "" then [""]
    else
      var rest := Split(s[1..], c);
      if s[0] == c then [""] + rest else [[s[0]] + rest[0]] + rest[1..]
  }

  function Join(gs: seq<string>, sep: string): (r: string) {
    if gs == [] then "" else if |gs| == 1 then gs[0] else gs[0] + sep + Join(gs[1..], sep)
  }

  predicate Free(c: char, gs: seq<string>) {
    forall g :: g in gs ==> c !in g
  }

  lemma {:induction false} SplitPlain(g: string, c: char, t: string)
    requires c !in g
    ensures Split(g + t, c) == [g + Split(t, c)[0]] + Split(t, c)[1..]
    decreases |g|
  {
    if g == "" {
      assert g + t == t && g + Split(t, c)[0] == Split(t, c)[0];
    } else {
      SplitPlain(g[1..], c, t);
      assert (g + t)[1..] == g[1..] + t;
      assert [g[0]] + (g[1..] + Split(t, c)[0]) == g + Split(t, c)[0];
    }
  }

  /** Splitting inverts joining when the separator occurs in no part. */
  lemma {:induction false} SplitOfJoin(gs: seq<string>, c: char)
    requires gs != [] && Free(c, gs)
    ensures Split(Join(gs, [c]), c) == gs
    decreases |gs|
  {
    if |gs| == 1 {
      SplitPlain(gs[0], c, "");
      assert gs[0] + "" == gs[0];
    } else {
      var rest := Join(gs[1..], [c]);
      SplitOfJoin(gs[1..], c);
      SplitPlain(gs[0], c, [c] + rest);
      assert ([c] + rest)[1..] == rest && Split([c] + rest, c) == [""] + gs[1..];
      assert gs[0] + [c] + rest == gs[0] + ([c] + rest) && gs[0] + "" == gs[0];
      assert [gs[0]] + gs[1..] == gs;
    }
  }

  lemma {:induction false} CharInJoin(gs: seq<string>, sep: string, c: char)
    requires c !in sep
    ensures c in Join(gs, sep) <==> exists g :: g in gs && c in g
    decreases |gs|
  {
    if |gs| == 1 {
      assert gs[0] in gs;
    } else if |gs| > 1 {
      CharInJoin(gs[1..], sep, c);
      assert gs == [gs[0]] + gs[1..];
    }
  }

  lemma {:induction false} SplitFrees(s: string, d: char, c: char)
    ensures Free(d, Split(s, d)) && (c !in s ==> Free(c, Split(s, d)))
    decreases |s|
  {
    if s != "" {
      SplitFrees(s[1..], d, c);
      assert Split(s[1..], d)[0] in Split(s[1..], d);
    }
  }

  lemma {:induction false} SplitEnd(s: string, c: char)
    requires s != "" && s[|s| - 1] != c
    ensures var last := Split(s, c)[|Split(s, c)| - 1]; last != "" && last[|last| - 1] == s[|s| - 1]
    decreases |s|
  {
    if |s| > 1 {
      SplitEnd(s[1..], c);
    } else {
      assert Split(s[1..], c) == [""];
    }
  }

  /** White space as strings.TrimSpace sees it. */
  predicate IsSpace(c: char) {
    var u := c as int;
    0x09 <= u <= 0x0D || u == 0x20 || u == 0x85 || u == 0xA0 || u == 0x1680 || 0x2000 <= u <= 0x200A
    || u == 0x2028 || u == 0x2029 || u == 0x202F || u == 0x205F || u == 0x3000
  }

  /** The code points with the White_Space property. */
  lemma SpacesAreWhiteSpace(c: char)
    ensures IsSpace(c) <==>
              c as int in {0x09, 0x0A, 0x0B, 0x0C, 0x0D, 0x20, 0x85, 0xA0, 0x1680, 0x2000, 0x2001, 0x2002, 0x2003,
                           0x2004, 0x2005, 0x2006, 0x2007, 0x2008, 0x2009, 0x200A, 0x2028, 0x2029, 0x202F, 0x205F,
                           0x3000}
  {
  }

  function TrimLeft(s: string): (r: string)
    ensures |r| <= |s|
  {
    if s != "" && IsSpace(s[0]) then TrimLeft(s[1..]) else s
  }

  function TrimEnd(s: string): (r: string)
    ensures |r| <= |s|
  {
    if s != "" && IsSpace(s[|s| - 1]) then TrimEnd(s[..|s| - 1]) else s
  }

  function TrimSpace(s: string): (r: string)
    ensures |r| <= |s|
  {
    TrimEnd(TrimLeft(s))
  }

  predicate Trimmed(s: string) {
    s != "" ==> !IsSpace(s[0]) && !IsSpace(s[|s| - 1])
  }

  lemma {:induction false} TrimLeftTrims(s: string)
    ensures var r := TrimLeft(s); r != "" ==> !IsSpace(r[0]) && r[|r| - 1] == s[|s| - 1]
    decreases |s|
  {
    if s != "" && IsSpace(s[0]) {
      TrimLeftTrims(s[1..]);
    }
  }

  lemma {:induction false} TrimEndTrims(s: string)
    ensures var r := TrimEnd(s); r <= s && (r != "" ==> !IsSpace(r[|r| - 1]))
    decreases |s|
  {
    if s != "" && IsSpace(s[|s| - 1]) {
      TrimEndTrims(s[..|s| - 1]);
    }
  }

  lemma {:induction false} TrimSpaceTrims(s: string)
    ensures Trimmed(TrimSpace(s)) && (Trimmed(s) <==> TrimSpace(s) == s)
  {
    TrimLeftTrims(s);
    TrimEndTrims(TrimLeft(s));
  }
}
