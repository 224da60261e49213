/** English slugs and their uniqueness (backend/internal/seedgen/normalize.go): lower-case letters and digits with
    single hyphens between them, and a suffix where a slug is taken. Unicode lower-casing and the Unicode digits
    are parameters; a slug is first made by the source's loop and then described word by word. */
module SeedSlugs {
  import opened GoStrings

  datatype Chars = Chars(lower: char -> char, isDigit: char -> bool)

  /** What the proofs need of `unicode.ToLower` and `unicode.IsDigit`. */
  ghost predicate Unicode(u: Chars) {
    && (forall c :: u.lower(u.lower(c)) == u.lower(c))
    && (forall c :: 'a' <= c <= 'z' ==> u.lower(c) == c)
    && (forall c :: 'A' <= c <= 'Z' ==> 'a' <= u.lower(c) <= 'z')
    && (forall c :: u.isDigit(c) ==> u.lower(c) == c)
    && (forall c :: '0' <= c <= '9' ==> u.isDigit(c))
    && u.lower('-') == '-' && !u.isDigit('-')
  }

  predicate IsAsciiLetter(c: char) {
    'a' <= c <= 'z' || 'A' <= c <= 'Z'
  }

  predicate Kept(u: Chars, c: char) {
    IsAsciiLetter(c) || u.isDigit(c)
  }

  /* ---------- the meaning of a slug ---------- */

  /** The maximal runs of kept characters, in order. */
  function Runs(u: Chars, s: string): (runs: seq<string>)
    ensures s != [] && Kept(u, s[|s| - 1]) ==> runs != []
    ensures forall w :: w in runs ==> w != [] && forall i :: 0 <= i < |w| ==> Kept(u, w[i])
  {
    if s == [] then []
    else
      var init, last := s[..|s| - 1], s[|s| - 1];
      var runs := Runs(u, init);
      if !Kept(u, last) then runs
      else if init != [] && Kept(u, init[|init| - 1]) then runs[..|runs| - 1] + [runs[|runs| - 1] + [last]]
      else runs + [[last]]
  }

  /** A slug is the runs of the lower-cased text joined by hyphens. */
  function Slug(u: Chars, value: string): string {
    Join(Runs(u, Lowered(u.lower, value)), "-")
  }

  /* ---------- the source's loop ---------- */

  /** `strings.Trim(s, "-")`. */
  function TrimDashes(s: string): string
    decreases |s|
  {
    if s != [] && s[0] == '-' then TrimDashes(s[1..])
    else if s != [] && s[|s| - 1] == '-' then TrimDashes(s[..|s| - 1])
    else s
  }

  lemma {:induction false} JoinLast(parts: seq<string>, w: string)
    requires parts != []
    ensures Join(parts + [w], "-") == Join(parts, "-") + "-" + w
  {
    if |parts| == 1 {
      assert (parts + [w])[1..] == [w];
    } else {
      JoinLast(parts[1..], w);
      assert (parts + [w])[1..] == parts[1..] + [w];
    }
  }

  lemma {:induction false} JoinGrows(parts: seq<string>, c: char)
    requires parts != []
    ensures Join(parts[..|parts| - 1] + [parts[|parts| - 1] + [c]], "-") == Join(parts, "-") + [c]
  {
    var init, last := parts[..|parts| - 1], parts[|parts| - 1];
    if init != [] {
      JoinLast(init, last);
      JoinLast(init, last + [c]);
      assert parts == init + [last];
    }
  }

  /** The runs once a character is added to a text with runs `runs`; `joined` says it continues the last. */
  function Grown(runs: seq<string>, kept: bool, joined: bool, c: char): seq<string>
    requires joined ==> runs != []
  {
    if !kept then runs
    else if joined then runs[..|runs| - 1] + [runs[|runs| - 1] + [c]]
    else runs + [[c]]
  }

  predicate EndsKept(u: Chars, s: string) {
    s != [] && Kept(u, s[|s| - 1])
  }

  /** How the runs change when a character is added. */
  lemma RunsStep(u: Chars, s: string, c: char)
    ensures EndsKept(u, s) ==> Runs(u, s) != []
    ensures Runs(u, s + [c]) == Grown(Runs(u, s), Kept(u, c), EndsKept(u, s), c)
    ensures EndsKept(u, s + [c]) == Kept(u, c)
  {
    hide Kept;
    var t := s + [c];
    assert t[..|t| - 1] == s && t[|t| - 1] == c;
  }

  /** What the builder holds after the characters of `s`. */
  function Built(u: Chars, s: string): string {
    Join(Runs(u, s), "-") + if Dashed(u, s) then "-" else ""
  }

  predicate Dashed(u: Chars, s: string) {
    Runs(u, s) != [] && !EndsKept(u, s)
  }

  lemma BuiltStep(u: Chars, s: string, c: char)
    ensures Built(u, s + [c]) ==
      if Kept(u, c) then Built(u, s) + [c]
      else if Built(u, s) != "" && !Dashed(u, s) then Built(u, s) + "-"
      else Built(u, s)
    ensures Dashed(u, s + [c]) ==
      if Kept(u, c) then false else (Built(u, s) != "" && !Dashed(u, s)) || Dashed(u, s)
  {
    hide Runs, Join, Kept;
    RunsStep(u, s, c);
    var runs := Runs(u, s);
    JoinEmpty(runs);
    JoinOne([c]);
    if runs != [] {
      JoinGrows(runs, c);
      JoinLast(runs, [c]);
    } else {
      NothingKept(u, s);
      assert runs + [[c]] == [[c]];
    }
  }

  lemma NothingKept(u: Chars, s: string)
    requires Runs(u, s) == []
    ensures !EndsKept(u, s)
  {}

  lemma JoinOne(w: string)
    ensures Join([w], "-") == w
  {}

  lemma JoinEmpty(runs: seq<string>)
    requires forall w :: w in runs ==> w != []
    ensures Join(runs, "-") == "" <==> runs == []
  {
    assert runs != [] ==> runs[0] in runs;
  }

  lemma BuiltNothing(u: Chars)
    ensures Built(u, []) == "" && !Dashed(u, [])
  {}

  method SlugifyEnglish(u: Chars, value: string) returns (slug: string)
    requires !u.isDigit('-')
    ensures slug == Slug(u, value)
  {
    hide Built, Dashed, Runs, Lowered, TrimDashes, Join;
    BuiltNothing(u);
    var builder: string := "";
    var previousDash := false;
    var text := Lowered(u.lower, value);
    for i := 0 to |text|
      invariant builder == Built(u, text[..i]) && previousDash == Dashed(u, text[..i])
    {
      var character := text[i];
      BuiltStep(u, text[..i], character);
      assert text[..i + 1] == text[..i] + [character];
      if IsAsciiLetter(character) || u.isDigit(character) {
        builder := builder + [character];
        previousDash := false;
      } else if |builder| > 0 && !previousDash {
        builder := builder + "-";
        previousDash := true;
      }
    }
    assert text[..|text|] == text;
    TrimBuilt(u, text);
    slug := TrimDashes(builder);
  }

  /** A trailing hyphen behind a text with other ends is all that trimming takes away. */
  lemma TrimTrailing(j: string)
    requires j != "" && j[0] != '-' && j[|j| - 1] != '-'
    ensures TrimDashes(j) == j && TrimDashes(j + "-") == j
  {
    var t := j + "-";
    assert t[..|t| - 1] == j && t[0] == j[0];
  }

  lemma DashIsNotKept(u: Chars)
    requires !u.isDigit('-')
    ensures !Kept(u, '-')
  {}

  /** Joined runs begin and end with kept characters. */
  lemma JoinedEnds(u: Chars, s: string)
    requires !u.isDigit('-')
    ensures var j := Join(Runs(u, s), "-");
      (j == "" <==> Runs(u, s) == []) && (j != "" ==> j[0] != '-' && j[|j| - 1] != '-')
  {
    DashIsNotKept(u);
    hide Runs, Join, Kept;
    JoinEmpty(Runs(u, s));
    if Runs(u, s) != [] {
      JoinEnds(u, Runs(u, s));
    }
  }

  lemma BuiltIs(u: Chars, s: string)
    ensures var j := Join(Runs(u, s), "-"); Built(u, s) == j || (Built(u, s) == j + "-" && Runs(u, s) != [])
  {
    hide Runs, Join, EndsKept;
  }

  lemma TrimBuilt(u: Chars, s: string)
    requires !u.isDigit('-')
    ensures TrimDashes(Built(u, s)) == Join(Runs(u, s), "-")
  {
    hide *;
    JoinedEnds(u, s);
    BuiltIs(u, s);
    TrimNothing();
    var j := Join(Runs(u, s), "-");
    if j != "" {
      TrimTrailing(j);
    }
  }

  lemma TrimNothing()
    ensures TrimDashes("") == ""
  {}

  ghost predicate Words(u: Chars, runs: seq<string>) {
    forall w :: w in runs ==> w != [] && forall i :: 0 <= i < |w| ==> Kept(u, w[i])
  }

  lemma {:induction false} JoinEnds(u: Chars, runs: seq<string>)
    requires runs != [] && Words(u, runs)
    ensures var j := Join(runs, "-"); j != [] && Kept(u, j[0]) && Kept(u, j[|j| - 1])
  {
    hide Kept;
    if |runs| > 1 {
      JoinEnds(u, runs[1..]);
    }
  }

  /* ---------- what every slug looks like ---------- */

  /** Lower-case ASCII letters, digits and single inner hyphens. */
  predicate WellFormed(u: Chars, s: string) {
    && (forall i :: 0 <= i < |s| ==> 'a' <= s[i] <= 'z' || u.isDigit(s[i]) || s[i] == '-')
    && (s != [] ==> s[0] != '-' && s[|s| - 1] != '-')
    && forall i :: 0 <= i < |s| - 1 ==> !(s[i] == '-' && s[i + 1] == '-')
  }

  predicate LowerWord(u: Chars, w: string) {
    w != [] && forall i :: 0 <= i < |w| ==> ('a' <= w[i] <= 'z' || u.isDigit(w[i]))
  }

  lemma {:induction false} RunsAreLower(u: Chars, s: string)
    requires Unicode(u)
    ensures forall w :: w in Runs(u, Lowered(u.lower, s)) ==> LowerWord(u, w)
    decreases |s|
  {
    if s != [] {
      var init, last := s[..|s| - 1], s[|s| - 1];
      RunsAreLower(u, init);
      RunsStep(u, Lowered(u.lower, init), u.lower(last));
      assert Lowered(u.lower, s) == Lowered(u.lower, init) + [u.lower(last)];
      LowerKept(u, last);
      hide Runs, Unicode, Kept, Lowered;
      GrownIsLower(u, Runs(u, Lowered(u.lower, init)), Kept(u, u.lower(last)), EndsKept(u, Lowered(u.lower, init)),
                   u.lower(last));
    } else {
      assert Lowered(u.lower, s) == [];
    }
  }

  /** Lower-casing never yields a capital. */
  lemma LowerKept(u: Chars, c: char)
    requires Unicode(u)
    ensures Kept(u, u.lower(c)) ==> LowerWord(u, [u.lower(c)])
  {
    assert u.lower(u.lower(c)) == u.lower(c);
  }

  lemma GrownIsLower(u: Chars, runs: seq<string>, kept: bool, joined: bool, c: char)
    requires (joined ==> runs != []) && (kept ==> LowerWord(u, [c]))
    requires forall w :: w in runs ==> LowerWord(u, w)
    ensures forall w :: w in Grown(runs, kept, joined, c) ==> LowerWord(u, w)
  {
    if kept {
      assert [c][0] == c;
      if joined {
        assert runs[|runs| - 1] in runs;
        WordGrows(u, runs[|runs| - 1], c);
      }
    }
    hide LowerWord;
  }

  lemma WordGrows(u: Chars, w: string, c: char)
    requires LowerWord(u, w) && LowerWord(u, [c])
    ensures LowerWord(u, w + [c])
  {
    assert [c][0] == c;
  }

  lemma WordIsWellFormed(u: Chars, w: string)
    requires !u.isDigit('-') && LowerWord(u, w)
    ensures WellFormed(u, w)
  {
    forall i | 0 <= i < |w| ensures w[i] != '-' {
      assert 'a' <= w[i] <= 'z' || u.isDigit(w[i]);
    }
  }

  lemma HyphenatedParts(u: Chars, a: string, b: string)
    requires a != [] && b != [] && WellFormed(u, a + "-" + b)
    ensures WellFormed(u, b)
  {
    var s := a + "-" + b;
    assert forall i :: 0 <= i < |b| ==> s[|a| + 1 + i] == b[i];
    assert s[|a|] == '-' && !(s[|a|] == '-' && s[|a| + 1] == '-');
    forall i | 0 <= i < |b| - 1
      ensures !(b[i] == '-' && b[i + 1] == '-')
    {
      assert s[|a| + 1 + i] == b[i] && s[|a| + 1 + i + 1] == b[i + 1];
    }
  }

  lemma HyphenatedWhole(u: Chars, a: string, b: string)
    requires a != [] && b != [] && WellFormed(u, a) && WellFormed(u, b)
    ensures WellFormed(u, a + "-" + b)
  {
    var s := a + "-" + b;
    forall i | 0 <= i < |s|
      ensures s[i] == if i < |a| then a[i] else if i == |a| then '-' else b[i - |a| - 1]
    {}
    forall i | 0 <= i < |s| - 1
      ensures !(s[i] == '-' && s[i + 1] == '-')
    {
      if |a| < i { assert s[i] == b[i - |a| - 1] && s[i + 1] == b[i - |a| - 1 + 1]; }
    }
  }

  /** Two well-formed texts stay well formed with a hyphen between them. */
  lemma HyphenatedIsWellFormed(u: Chars, a: string, b: string)
    requires a != [] && b != [] && WellFormed(u, a)
    ensures WellFormed(u, a + "-" + b) <==> WellFormed(u, b)
  {
    hide WellFormed;
    if WellFormed(u, b) {
      HyphenatedWhole(u, a, b);
    }
    if WellFormed(u, a + "-" + b) {
      HyphenatedParts(u, a, b);
    }
  }

  lemma {:induction false} JoinIsWellFormed(u: Chars, words: seq<string>)
    requires !u.isDigit('-') && forall w :: w in words ==> LowerWord(u, w)
    ensures WellFormed(u, Join(words, "-"))
  {
    hide WellFormed;
    if words == [] {
      EmptyIsWellFormed(u);
    } else {
      WordIsWellFormed(u, words[0]);
      if |words| > 1 {
        JoinIsWellFormed(u, words[1..]);
        JoinEmpty(words[1..]);
        HyphenatedIsWellFormed(u, words[0], Join(words[1..], "-"));
      }
    }
  }

  lemma EmptyIsWellFormed(u: Chars)
    ensures WellFormed(u, "")
  {}

  /** Every slug is well formed. */
  lemma SlugIsWellFormed(u: Chars, value: string)
    requires Unicode(u)
    ensures WellFormed(u, Slug(u, value))
  {
    RunsAreLower(u, value);
    JoinIsWellFormed(u, Runs(u, Lowered(u.lower, value)));
  }

  /* ---------- slugs are fixed points ---------- */

  lemma RunsOfNothing(u: Chars)
    ensures Runs(u, "") == [] && !EndsKept(u, "")
  {}

  lemma EndsKeptWord(u: Chars, w: string)
    requires w != [] && forall i :: 0 <= i < |w| ==> Kept(u, w[i])
    ensures EndsKept(u, w)
  {
    hide Kept;
  }

  lemma GrownWord(w: string, c: char)
    ensures Grown([], true, false, c) == [[c]] && Grown([w], true, true, c) == [w + [c]]
  {}

  lemma {:induction false} RunsOfWord(u: Chars, w: string)
    requires w != [] && forall i :: 0 <= i < |w| ==> Kept(u, w[i])
    ensures Runs(u, w) == [w]
  {
    hide *;
    var init, last := w[..|w| - 1], w[|w| - 1];
    assert w == init + [last];
    RunsStep(u, init, last);
    GrownWord(init, last);
    if init == [] {
      RunsOfNothing(u);
    } else {
      assert forall i :: 0 <= i < |init| ==> init[i] == w[i];
      RunsOfWord(u, init);
      EndsKeptWord(u, init);
    }
  }

  lemma GrownBehind(p: seq<string>, q: seq<string>, kept: bool, joined: bool, c: char)
    requires joined ==> q != []
    ensures Grown(p + q, kept, joined, c) == p + Grown(q, kept, joined, c)
  {
    if joined {
      assert (p + q)[..|p + q| - 1] == p + q[..|q| - 1];
    }
  }

  lemma EndsKeptAfter(u: Chars, a: string, c: char, b: string)
    requires !Kept(u, c)
    ensures EndsKept(u, a + [c] + b) == EndsKept(u, b)
  {
    hide Kept;
    var t := a + [c] + b;
    assert t[|t| - 1] == if b == [] then c else b[|b| - 1];
  }

  lemma OtherAddsNoRun(u: Chars, a: string, c: char)
    requires !Kept(u, c)
    ensures Runs(u, a + [c]) == Runs(u, a) && Runs(u, "") == []
  {
    hide Kept;
    RunsStep(u, a, c);
  }

  /** A character that is not kept separates the runs before it from those behind it. */
  lemma {:induction false} RunsAcross(u: Chars, a: string, c: char, b: string)
    requires !Kept(u, c)
    ensures Runs(u, a + [c] + b) == Runs(u, a) + Runs(u, b)
    decreases |b|
  {
    hide *;
    if b == [] {
      OtherAddsNoRun(u, a, c);
      assert a + [c] + b == a + [c];
    } else {
      var init, last := b[..|b| - 1], b[|b| - 1];
      RunsAcross(u, a, c, init);
      EndsKeptAfter(u, a, c, init);
      RunsStep(u, a + [c] + init, last);
      RunsStep(u, init, last);
      assert a + [c] + b == a + [c] + init + [last] && b == init + [last];
      GrownBehind(Runs(u, a), Runs(u, init), Kept(u, last), EndsKept(u, init), last);
    }
  }

  lemma {:induction false} RunsOfJoin(u: Chars, words: seq<string>)
    requires !u.isDigit('-') && Words(u, words)
    ensures Runs(u, Join(words, "-")) == words
  {
    DashIsNotKept(u);
    if words == [] {
      assert Runs(u, "") == [];
    } else {
      hide Kept, Runs;
      assert words[0] in words;
      RunsOfWord(u, words[0]);
      if |words| > 1 {
        RunsOfJoin(u, words[1..]);
        RunsAcross(u, words[0], '-', Join(words[1..], "-"));
        assert words == [words[0]] + words[1..];
      }
    }
  }

  lemma LoweredSlug(u: Chars, s: string)
    requires Unicode(u) && WellFormed(u, s)
    ensures Lowered(u.lower, s) == s
  {}

  /** Slugs are fixed points: making a slug of a slug changes nothing. */
  lemma SlugIsIdempotent(u: Chars, value: string)
    requires Unicode(u)
    ensures Slug(u, Slug(u, value)) == Slug(u, value)
  {
    SlugIsWellFormed(u, value);
    LoweredSlug(u, Slug(u, value));
    RunsOfJoin(u, Runs(u, Lowered(u.lower, value)));
  }

  lemma {:induction false} RunsEmptyIff(u: Chars, s: string)
    ensures Runs(u, s) == [] <==> forall i :: 0 <= i < |s| ==> !Kept(u, s[i])
  {
    if s != [] {
      RunsEmptyIff(u, s[..|s| - 1]);
    }
  }

  /* ---------- slugs, letter by letter ---------- */

  /** A character that is a letter from A to Z or a digit once it is lower-cased. */
  predicate Spelled(u: Chars, c: char) {
    var l := u.lower(c);
    'a' <= l <= 'z' || 'A' <= l <= 'Z' || u.isDigit(l)
  }

  lemma SpelledIff(u: Chars, c: char)
    ensures Kept(u, u.lower(c)) <==> Spelled(u, c)
  {}

  /** A slug is empty exactly when the title has no letter from A to Z and no digit. */
  lemma SlugEmptyIff(u: Chars, value: string)
    ensures Slug(u, value) == "" <==> forall i :: 0 <= i < |value| ==> !Spelled(u, value[i])
  {
    var t := Lowered(u.lower, value);
    RunsEmptyIff(u, t);
    JoinEmpty(Runs(u, t));
    forall i | 0 <= i < |value| ensures Kept(u, t[i]) <==> Spelled(u, value[i]) { SpelledIff(u, value[i]); }
    hide Kept, Runs, Spelled;
  }

  /** A word of letters and digits is its own slug, lower-cased. */
  lemma SlugOfWord(u: Chars, w: string)
    requires forall i :: 0 <= i < |w| ==> Spelled(u, w[i])
    ensures |Slug(u, w)| == |w| && forall i :: 0 <= i < |w| ==> Slug(u, w)[i] == u.lower(w[i])
  {
    var t := Lowered(u.lower, w);
    forall i | 0 <= i < |w| ensures Kept(u, t[i]) { SpelledIff(u, w[i]); }
    hide Kept, Spelled;
    if w == "" {
      RunsOfNothing(u);
      assert t == "";
    } else {
      RunsOfWord(u, t);
      JoinOne(t);
    }
  }

  lemma {:induction false} JoinBoth(a: seq<string>, b: seq<string>)
    requires a != [] && b != []
    ensures Join(a + b, "-") == Join(a, "-") + "-" + Join(b, "-")
    decreases |b|
  {
    hide Join;
    var init, last := b[..|b| - 1], b[|b| - 1];
    assert a + b == (a + init) + [last] && b == init + [last];
    JoinLast(a + init, last);
    if init == [] {
      assert a + init == a;
      JoinOne(last);
    } else {
      JoinBoth(a, init);
      JoinLast(init, last);
    }
  }

  /** Anything else is a gap, which becomes one hyphen if letters or digits come on both sides of it. With
      `SlugOfWord` this determines every slug. */
  lemma SlugAcross(u: Chars, a: string, c: char, b: string)
    requires !Spelled(u, c)
    ensures var before, behind := Slug(u, a), Slug(u, b);
      Slug(u, a + [c] + b) ==
        if before == "" then behind else if behind == "" then before else before + "-" + behind
  {
    SpelledIff(u, c);
    LoweredAcross(u, a, c, b);
    JoinEmpty(Runs(u, Lowered(u.lower, a)));
    JoinEmpty(Runs(u, Lowered(u.lower, b)));
    hide Kept, Spelled, Runs, Lowered, Join;
    RunsAcross(u, Lowered(u.lower, a), u.lower(c), Lowered(u.lower, b));
    var p, q := Runs(u, Lowered(u.lower, a)), Runs(u, Lowered(u.lower, b));
    if p == [] {
      assert p + q == q;
    } else if q == [] {
      assert p + q == p;
    } else {
      JoinBoth(p, q);
    }
  }

  lemma LoweredAcross(u: Chars, a: string, c: char, b: string)
    ensures Lowered(u.lower, a + [c] + b) == Lowered(u.lower, a) + [u.lower(c)] + Lowered(u.lower, b)
  {}

  /* ---------- unique slugs ---------- */

  /** `%d` of a signed number. */
  function Decimal(n: int): string {
    if n < 0 then "-" + Itoa(-n) else Itoa(n)
  }

  function Candidate(base: string, id: int): string {
    base + "-" + Decimal(id)
  }

  /** The slug a fixture gets when `used` are taken; empty means failure. */
  function Unique(base: string, id: int, used: set<string>): string {
    if base == "" then ""
    else if base !in used then base
    else if Candidate(base, id) !in used then Candidate(base, id)
    else ""
  }

  class SlugSet {
    var used: set<string>

    constructor ()
      ensures used == {}
    {
      used := {};
    }

    method UniqueEventSlug(base: string, fixtureId: int) returns (slug: string)
      modifies this
      ensures slug == Unique(base, fixtureId, old(used))
      ensures used == if slug == "" then old(used) else old(used) + {slug}
    {
      if base == "" {
        return "";
      }
      if base !in used {
        used := used + {base};
        return base;
      }
      var candidate := base + "-" + Decimal(fixtureId);
      if candidate !in used {
        used := used + {candidate};
        return candidate;
      }
      return "";
    }
  }

  /** With a well-formed base, the suffixed slug is well formed if and only if the identifier is not
      negative: a negative one prints a second hyphen. */
  lemma CandidateWellFormed(u: Chars, base: string, id: int)
    requires Unicode(u) && base != "" && WellFormed(u, base)
    ensures WellFormed(u, Candidate(base, id)) <==> id >= 0
  {
    HyphenatedIsWellFormed(u, base, Decimal(id));
    if id >= 0 {
      assert LowerWord(u, Itoa(id));
      WordIsWellFormed(u, Itoa(id));
    } else {
      assert Decimal(id)[0] == '-';
    }
  }

  /** A suffixed slug is the base, a hyphen, a sign if the identifier is negative, and its digits. */
  lemma CandidateSpelled(base: string, id: int) returns (digits: string)
    ensures Candidate(base, id) == base + (if id < 0 then "--" else "-") + digits
    ensures NumeralValue(digits) == (if id < 0 then -id else id) && (id != 0 ==> digits[..1] != "0")
  {
    hide Itoa, NumeralValue;
    var n := if id < 0 then -id else id;
    ItoaDenotes(n);
    digits := Itoa(n);
    SignedSuffix(base, digits);
    assert digits[..1] == [digits[0]];
  }

  lemma SignedSuffix(base: string, digits: string)
    ensures base + "-" + ("-" + digits) == base + "--" + digits
  {}
}
