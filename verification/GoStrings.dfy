/** The functions of Go's `strings` and `strconv` packages that the modelled code calls, with what the other
    modules need of them: trimming, words, splitting and joining, searching, replacing, comparing, and decimal
    numerals. A `string` is a sequence of Unicode scalar values, so its length is Go's rune count, and bytes
    and encodings do not appear. */
module GoStrings {

  datatype Option<+T> = None | Some(value: T)

  /* ---------- white space ---------- */

  /** The code points of Unicode's White_Space property, as in Go's `unicode.IsSpace`. */
  predicate IsSpace(c: char) {
    c in "\t\n\r \U{0B}\U{0C}\U{85}\U{A0}\U{1680}\U{2028}\U{2029}\U{202F}\U{205F}\U{3000}"
    || '\U{2000}' <= c <= '\U{200A}'
  }

  /** The same by number. */
  lemma IsSpaceIff(c: char)
    ensures IsSpace(c) <==>
      var n := c as int;
      || 9 <= n <= 13 || n == 32 || n == 133 || n == 160 || n == 5760 || 8192 <= n <= 8202 || n == 8232 || n == 8233
      || n == 8239 || n == 8287 || n == 12288
  {
    var listed := "\t\n\r \U{0B}\U{0C}\U{85}\U{A0}\U{1680}\U{2028}\U{2029}\U{202F}\U{205F}\U{3000}";
    assert c in listed <==> exists i :: 0 <= i < 14 && listed[i] == c;
    forall i | 0 <= i < 14 && listed[i] == c
      ensures c as int in {9, 10, 13, 32, 11, 12, 133, 160, 5760, 8232, 8233, 8239, 8287, 12288}
    {}
    if c as int in {9, 10, 13, 32} {
      assert c == listed[0] || c == listed[1] || c == listed[2] || c == listed[3];
    } else if c as int in {11, 12, 133, 160, 5760} {
      assert c == listed[4] || c == listed[5] || c == listed[6] || c == listed[7] || c == listed[8];
    } else if c as int in {8232, 8233, 8239, 8287, 12288} {
      assert c == listed[9] || c == listed[10] || c == listed[11] || c == listed[12] || c == listed[13];
    }
  }

  function TrimLeft(s: string): string {
    if s != [] && IsSpace(s[0]) then TrimLeft(s[1..]) else s
  }

  function TrimRight(s: string): string {
    if s != [] && IsSpace(s[|s| - 1]) then TrimRight(s[..|s| - 1]) else s
  }

  function TrimSpace(s: string): string {
    TrimRight(TrimLeft(s))
  }

  /** A string no trimming changes. */
  predicate Trimmed(s: string) {
    s == [] || (!IsSpace(s[0]) && !IsSpace(s[|s| - 1]))
  }

  lemma {:induction false} TrimRightKeepsHead(s: string)
    requires s != [] && !IsSpace(s[0])
    ensures TrimRight(s) != [] && TrimRight(s)[0] == s[0]
    ensures !IsSpace(TrimRight(s)[|TrimRight(s)| - 1])
  {
    if IsSpace(s[|s| - 1]) {
      TrimRightKeepsHead(s[..|s| - 1]);
    }
  }

  lemma {:induction false} TrimLeftHead(s: string)
    ensures TrimLeft(s) == [] || !IsSpace(TrimLeft(s)[0])
  {
    if s != [] && IsSpace(s[0]) {
      TrimLeftHead(s[1..]);
    }
  }

  lemma TrimSpaceIsTrimmed(s: string)
    ensures Trimmed(TrimSpace(s))
    ensures Trimmed(s) ==> TrimSpace(s) == s
  {
    TrimLeftHead(s);
    if TrimLeft(s) != [] {
      TrimRightKeepsHead(TrimLeft(s));
    }
  }

  /** Only white space around. */
  predicate AllSpace(s: string) {
    forall i :: 0 <= i < |s| ==> IsSpace(s[i])
  }

  lemma {:induction false} TrimLeftTakes(s: string) returns (a: string)
    ensures AllSpace(a) && s == a + TrimLeft(s)
  {
    hide IsSpace;
    if s != [] && IsSpace(s[0]) {
      var rest := TrimLeftTakes(s[1..]);
      a := [s[0]] + rest;
    } else {
      a := "";
    }
  }

  lemma {:induction false} TrimRightTakes(s: string) returns (b: string)
    ensures AllSpace(b) && s == TrimRight(s) + b
  {
    hide IsSpace;
    if s != [] && IsSpace(s[|s| - 1]) {
      var rest := TrimRightTakes(s[..|s| - 1]);
      b := rest + [s[|s| - 1]];
    } else {
      b := "";
    }
  }

  /** Trimming takes white space from both ends, as much as there is, and nothing else. */
  lemma TrimSpaceTakes(s: string) returns (a: string, b: string)
    ensures s == a + TrimSpace(s) + b && AllSpace(a) && AllSpace(b) && Trimmed(TrimSpace(s))
  {
    a := TrimLeftTakes(s);
    b := TrimRightTakes(TrimLeft(s));
    TrimSpaceIsTrimmed(s);
  }

  /** Nothing is left of white space, and of nothing else. */
  lemma TrimSpaceBlank(s: string)
    ensures TrimSpace(s) == "" <==> AllSpace(s)
  {
    var a, b := TrimSpaceTakes(s);
    hide TrimSpace;
    if TrimSpace(s) != "" {
      assert s[|a|] == TrimSpace(s)[0];
    }
  }

  /** `strings.ToLower`, given `unicode.ToLower`. */
  function Lowered(lower: char -> char, s: string): string {
    seq(|s|, i requires 0 <= i < |s| => lower(s[i]))
  }

  /* ---------- fields and words ---------- */

  function WordLength(s: string): (n: nat)
    ensures n <= |s|
    ensures forall i :: 0 <= i < n ==> !IsSpace(s[i])
    ensures n < |s| ==> IsSpace(s[n])
  {
    if s == [] || IsSpace(s[0]) then 0 else 1 + WordLength(s[1..])
  }

  /** `strings.Fields`: the maximal runs of non-space characters, in order. */
  function Fields(s: string): seq<string>
    decreases |s|
  {
    if s == [] then []
    else if IsSpace(s[0]) then Fields(s[1..])
    else [s[..WordLength(s)]] + Fields(s[WordLength(s)..])
  }

  lemma WordLengthIs(s: string, n: nat)
    requires n <= |s| && forall i :: 0 <= i < n ==> !IsSpace(s[i])
    requires n < |s| ==> IsSpace(s[n])
    ensures WordLength(s) == n
  {
    assert n < |s| ==> IsSpace(s[n]);
    assert WordLength(s) < |s| ==> IsSpace(s[WordLength(s)]);
  }

  lemma FieldsOfSpaced(c: char, s: string)
    requires IsSpace(c)
    ensures Fields([c] + s) == Fields(s)
  {
    assert ([c] + s)[1..] == s;
  }

  lemma FieldsFirstWord(s: string)
    requires s != [] && !IsSpace(s[0])
    ensures WordLength(s) > 0 && Fields(s) == [s[..WordLength(s)]] + Fields(s[WordLength(s)..])
  {
    hide IsSpace;
  }

  /** A word is as long in front of white space. */
  lemma WordLengthBefore(a: string, c: char, b: string)
    requires IsSpace(c)
    ensures WordLength(a + [c] + b) == WordLength(a)
  {
    hide IsSpace, WordLength;
    var s, n := a + [c] + b, WordLength(a);
    assert forall i :: 0 <= i < |a| ==> s[i] == a[i];
    WordLengthIs(s, n);
  }

  /** White space separates: the fields around it are those of each side. */
  lemma {:induction false} FieldsSplit(a: string, c: char, b: string)
    requires IsSpace(c)
    ensures Fields(a + [c] + b) == Fields(a) + Fields(b)
    decreases |a|
  {
    hide IsSpace, Fields, WordLength;
    var s := a + [c] + b;
    if a == [] {
      assert s == [c] + b;
      FieldsOfSpaced(c, b);
      FieldsOfNothing();
    } else if IsSpace(a[0]) {
      assert s == [a[0]] + (a[1..] + [c] + b) && a == [a[0]] + a[1..];
      FieldsOfSpaced(a[0], a[1..] + [c] + b);
      FieldsOfSpaced(a[0], a[1..]);
      FieldsSplit(a[1..], c, b);
    } else {
      var n := WordLength(a);
      WordLengthBefore(a, c, b);
      FieldsFirstWord(a);
      FieldsFirstWord(s);
      assert s[..n] == a[..n] && s[n..] == a[n..] + [c] + b;
      FieldsSplit(a[n..], c, b);
    }
  }

  lemma FieldsOfNothing()
    ensures Fields([]) == []
  {}

  lemma FieldsTrailingSpace(a: string, c: char)
    requires IsSpace(c)
    ensures Fields(a + [c]) == Fields(a)
  {
    FieldsSplit(a, c, "");
    assert a + [c] + "" == a + [c];
  }

  /** Text after a line that ends in white space adds its own fields. */
  lemma FieldsAfterSpace(a: string, b: string)
    requires a == "" || IsSpace(a[|a| - 1])
    ensures Fields(a + b) == Fields(a) + Fields(b)
  {
    if a == "" {
      assert a + b == b;
    } else {
      var init, c := a[..|a| - 1], a[|a| - 1];
      assert a == init + [c];
      FieldsTrailingSpace(init, c);
      FieldsSplit(init, c, b);
    }
  }

  lemma {:induction false} FieldsTrimLeft(s: string)
    ensures Fields(TrimLeft(s)) == Fields(s)
  {
    if s != [] && IsSpace(s[0]) {
      FieldsTrimLeft(s[1..]);
    }
  }

  lemma {:induction false} FieldsTrimRight(s: string)
    ensures Fields(TrimRight(s)) == Fields(s)
  {
    if s != [] && IsSpace(s[|s| - 1]) {
      var init, c := s[..|s| - 1], s[|s| - 1];
      assert init + [c] == s;
      FieldsTrailingSpace(init, c);
      FieldsTrimRight(init);
    }
  }

  lemma FieldsTrimSpace(s: string)
    ensures Fields(TrimSpace(s)) == Fields(s)
  {
    FieldsTrimLeft(s);
    FieldsTrimRight(TrimLeft(s));
  }

  predicate IsWord(w: string) {
    w != [] && forall i :: 0 <= i < |w| ==> !IsSpace(w[i])
  }

  lemma {:induction false} FieldsAreWords(s: string)
    ensures forall w :: w in Fields(s) ==> IsWord(w)
    decreases |s|
  {
    if s != [] {
      if IsSpace(s[0]) {
        FieldsAreWords(s[1..]);
      } else {
        FieldsAreWords(s[WordLength(s)..]);
      }
    }
  }

  lemma FieldsOfWord(w: string)
    requires IsWord(w)
    ensures Fields(w) == [w]
  {
    WordLengthIs(w, |w|);
    assert w[..|w|] == w;
  }

  function Join(parts: seq<string>, sep: string): string {
    if parts == [] then []
    else if |parts| == 1 then parts[0]
    else parts[0] + sep + Join(parts[1..], sep)
  }

  /** Splitting a space-joined list of words gives the list back. */
  lemma {:induction false} FieldsOfJoin(words: seq<string>)
    requires forall w :: w in words ==> IsWord(w)
    ensures Fields(Join(words, " ")) == words
  {
    if |words| == 1 {
      FieldsOfWord(words[0]);
    } else if |words| > 1 {
      FieldsOfJoin(words[1..]);
      FieldsOfWord(words[0]);
      FieldsSplit(words[0], ' ', Join(words[1..], " "));
    }
  }

  /* ---------- searching, splitting, replacing ---------- */

  predicate HasPrefix(s: string, prefix: string) {
    prefix <= s
  }

  predicate HasSuffix(s: string, suffix: string) {
    |suffix| <= |s| && s[|s| - |suffix|..] == suffix
  }

  predicate OccursAt(s: string, sub: string, i: int) {
    0 <= i && i + |sub| <= |s| && s[i..i + |sub|] == sub
  }

  /** The first occurrence of `sub`, as in `strings.Index`. */
  function IndexOf(s: string, sub: string): (r: Option<nat>)
    ensures r.Some? ==> OccursAt(s, sub, r.value) && forall j :: 0 <= j < r.value ==> !OccursAt(s, sub, j)
    ensures r.None? ==> forall j :: 0 <= j <= |s| ==> !OccursAt(s, sub, j)
  {
    if |s| < |sub| then None
    else if s[..|sub|] == sub then Some(0)
    else
      assert forall j :: 1 <= j ==> (OccursAt(s, sub, j) <==> OccursAt(s[1..], sub, j - 1));
      match IndexOf(s[1..], sub)
      case None => None
      case Some(i) => Some(i + 1)
  }

  predicate Contains(s: string, sub: string) {
    IndexOf(s, sub).Some?
  }

  predicate ContainsAny(s: string, chars: string) {
    exists i :: 0 <= i < |s| && s[i] in chars
  }

  /** `strings.Split` for a non-empty separator. */
  function Split(s: string, sep: string): (parts: seq<string>)
    requires sep != []
    ensures parts != []
    decreases |s|
  {
    match IndexOf(s, sep)
    case None => [s]
    case Some(i) => [s[..i]] + Split(s[i + |sep|..], sep)
  }

  lemma {:induction false} JoinOfSplit(s: string, sep: string)
    requires sep != []
    ensures Join(Split(s, sep), sep) == s
    decreases |s|
  {
    hide IndexOf;
    match IndexOf(s, sep)
    case None =>
    case Some(i) =>
      var rest := s[i + |sep|..];
      JoinOfSplit(rest, sep);
      assert Split(s, sep)[1..] == Split(rest, sep);
      assert s == s[..i] + sep + rest;
  }

  lemma SplitSteps(s: string, sep: string)
    requires sep != []
    ensures IndexOf(s, sep).None? <==> |Split(s, sep)| == 1
    ensures IndexOf(s, sep).None? ==> Split(s, sep) == [s]
    ensures IndexOf(s, sep).Some? ==>
      var i := IndexOf(s, sep).value; Split(s, sep) == [s[..i]] + Split(s[i + |sep|..], sep)
  {
    hide IndexOf;
  }

  /** Nothing before the first occurrence holds another. */
  lemma BeforeFirst(s: string, sep: string)
    requires sep != [] && IndexOf(s, sep).Some?
    ensures !Contains(s[..IndexOf(s, sep).value], sep)
  {
    hide IndexOf;
    var head := s[..IndexOf(s, sep).value];
    forall j: nat | j + |sep| <= |head| ensures !OccursAt(head, sep, j) {
      assert head[j..j + |sep|] == s[j..j + |sep|] && !OccursAt(s, sep, j);
    }
  }

  /** No part of a split holds the separator. */
  lemma {:induction false} SplitParts(s: string, sep: string, i: nat)
    requires sep != [] && i < |Split(s, sep)|
    ensures !Contains(Split(s, sep)[i], sep)
    decreases |s|
  {
    hide IndexOf;
    if IndexOf(s, sep).Some? {
      if i > 0 {
        SplitParts(s[IndexOf(s, sep).value + |sep|..], sep, i - 1);
      } else {
        BeforeFirst(s, sep);
      }
    }
  }

  /** `strings.ReplaceAll` for a non-empty pattern. */
  function ReplaceAll(s: string, pattern: string, replacement: string): string
    requires pattern != []
    decreases |s|
  {
    if |s| < |pattern| then s
    else if s[..|pattern|] == pattern then replacement + ReplaceAll(s[|pattern|..], pattern, replacement)
    else [s[0]] + ReplaceAll(s[1..], pattern, replacement)
  }

  function Normalised(s: string): string {
    ReplaceAll(s, "\r\n", "\n")
  }

  /** The replacement copies a leading run of non-space characters. */
  lemma {:induction false} NormalisedWord(s: string, n: nat)
    requires n <= |s| && forall i :: 0 <= i < n ==> !IsSpace(s[i])
    ensures Normalised(s) == s[..n] + Normalised(s[n..])
    decreases n
  {
    if n == 0 {
      assert s[0..] == s;
    } else {
      assert s[0] != '\r';
      NormalisedWord(s[1..], n - 1);
      assert s[1..][n - 1..] == s[n..];
      assert s[..n] == [s[0]] + s[1..][..n - 1];
      if |s| < 2 { assert s[1..] == []; assert s[n..] == []; }
    }
  }

  lemma NormalisedSpaceHead(s: string)
    requires s == [] || IsSpace(s[0])
    ensures Normalised(s) == [] || IsSpace(Normalised(s)[0])
  {}

  lemma FieldsAfterBreak(s: string)
    requires |s| >= 2 && IsSpace(s[0]) && IsSpace(s[1])
    ensures Fields(s) == Fields(s[2..])
  {
    hide IsSpace;
    assert s[1..][1..] == s[2..];
  }

  lemma ReplaceAtStart(s: string, pattern: string, replacement: string)
    requires pattern != [] && |s| >= |pattern| && s[..|pattern|] == pattern
    ensures ReplaceAll(s, pattern, replacement) == replacement + ReplaceAll(s[|pattern|..], pattern, replacement)
  {}

  lemma BreaksAreSpace()
    ensures IsSpace('\n') && IsSpace('\r')
  {}

  lemma NormalisedBreak(s: string)
    requires |s| >= 2 && s[..2] == "\r\n"
    ensures Normalised(s) == "\n" + Normalised(s[2..]) && Fields(s) == Fields(s[2..])
  {
    BreaksAreSpace();
    assert s[0] == s[..2][0] == '\r' && s[1] == s[..2][1] == '\n';
    hide Fields, IsSpace, ReplaceAll;
    FieldsAfterBreak(s);
    ReplaceAtStart(s, "\r\n", "\n");
  }

  lemma NormalisedSpace(s: string)
    requires s != [] && IsSpace(s[0]) && !(|s| >= 2 && s[..2] == "\r\n")
    ensures Normalised(s) == [s[0]] + Normalised(s[1..]) && Fields(s) == Fields(s[1..])
  {
    hide IsSpace;
    if |s| < 2 { assert s[1..] == []; }
  }

  lemma NormalisedStart(s: string, n: nat)
    requires s != [] && !IsSpace(s[0]) && n == WordLength(s)
    ensures n > 0 && Normalised(s) == s[..n] + Normalised(s[n..])
    ensures WordLength(Normalised(s)) == n
  {
    NormalisedWord(s, n);
    NormalisedSpaceHead(s[n..]);
    hide IsSpace, Normalised;
    var t := Normalised(s);
    assert forall i :: 0 <= i < n ==> t[i] == s[i];
    assert n < |s| ==> s[n..][0] == s[n];
    assert n < |t| ==> t[n] == Normalised(s[n..])[0];
    WordLengthIs(t, n);
  }

  /** Replacing CRLF by LF changes no field. */
  lemma {:induction false} FieldsNormalised(s: string)
    ensures Fields(Normalised(s)) == Fields(s)
    decreases |s|
  {
    hide Fields, Normalised, IsSpace, WordLength;
    if |s| >= 2 && s[..2] == "\r\n" {
      NormalisedBreak(s);
      FieldsNormalised(s[2..]);
      BreaksAreSpace();
      FieldsOfSpaced('\n', Normalised(s[2..]));
    } else if s == [] {
      NormalisedNothing();
    } else if IsSpace(s[0]) {
      NormalisedSpace(s);
      FieldsNormalised(s[1..]);
      FieldsOfSpaced(s[0], Normalised(s[1..]));
    } else {
      var n, t := WordLength(s), Normalised(s);
      NormalisedStart(s, n);
      FieldsNormalised(s[n..]);
      assert t[0] == s[0] && t[..n] == s[..n] && t[n..] == Normalised(s[n..]);
      FieldsFirstWord(s);
      FieldsFirstWord(t);
    }
  }

  lemma NormalisedNothing()
    ensures Normalised([]) == []
  {}

  /* ---------- comparing ---------- */

  /** `strings.Compare(s, t) < 0`. */
  predicate StringLess(s: string, t: string) {
    if t == "" then false
    else if s == "" then true
    else if s[0] != t[0] then s[0] < t[0]
    else StringLess(s[1..], t[1..])
  }

  lemma {:induction false} StringLessTransitive(s: string, t: string, u: string)
    requires StringLess(s, t) && StringLess(t, u)
    ensures StringLess(s, u)
  {
    if s != "" && s[0] == t[0] == u[0] {
      StringLessTransitive(s[1..], t[1..], u[1..]);
    }
  }

  lemma {:induction false} StringLessTotal(s: string, t: string)
    ensures !(StringLess(s, t) && StringLess(t, s))
    ensures s == t <==> !StringLess(s, t) && !StringLess(t, s)
  {
    if s != "" && t != "" && s[0] == t[0] {
      StringLessTotal(s[1..], t[1..]);
      assert s == [s[0]] + s[1..] && t == [t[0]] + t[1..];
    }
  }

  /* ---------- decimal printing ---------- */

  function Digit(d: nat): char
    requires d < 10
  {
    "0123456789"[d]
  }

  /** `strconv.Itoa` of a non-negative number. */
  function Itoa(n: nat): (s: string)
    ensures s != [] && forall i :: 0 <= i < |s| ==> '0' <= s[i] <= '9'
  {
    if n < 10 then [Digit(n)] else Itoa(n / 10) + [Digit(n % 10)]
  }

  lemma ItoaSteps(n: nat)
    requires n >= 10
    ensures var s := Itoa(n); s[..|s| - 1] == Itoa(n / 10) && s[|s| - 1] == Digit(n % 10)
  {}

  lemma DigitInjective(d: nat, e: nat)
    requires d < 10 && e < 10 && Digit(d) == Digit(e)
    ensures d == e
  {}

  /** Two numbers with the same decimal form are equal. */
  lemma {:induction false} ItoaInjective(m: nat, n: nat)
    requires Itoa(m) == Itoa(n)
    ensures m == n
  {
    var s := Itoa(m);
    if m >= 10 && n >= 10 {
      ItoaSteps(m);
      ItoaSteps(n);
      hide *;
      ItoaInjective(m / 10, n / 10);
      DigitInjective(m % 10, n % 10);
    }
  }

  /** The number a numeral denotes. */
  function NumeralValue(s: string): int {
    if s == "" then 0 else 10 * NumeralValue(s[..|s| - 1]) + (s[|s| - 1] as int - '0' as int)
  }

  /** The numeral of a number denotes it, and does not begin with a zero it could do without. */
  lemma {:induction false} ItoaDenotes(n: nat)
    ensures NumeralValue(Itoa(n)) == n && (n > 0 ==> Itoa(n)[0] != '0')
  {
    if n >= 10 {
      ItoaSteps(n);
      ItoaDenotes(n / 10);
    } else {
      assert Itoa(n)[..0] == "";
    }
  }
}
