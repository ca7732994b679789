/**
 * The text operations the transcript ingester relies on, written as explicit
 * scanners: Go's strings.Split, strings.Join, strings.TrimSpace and
 * strings.Contains, and the two regular expressions it matches replies
 * against, `\w+` (word tokens) and `http[s]://\w+` (a link).
 */
module Text {
  import opened Wrappers

  /** RE2's `\w`: an ASCII letter, an ASCII digit or an underscore. */
  predicate IsWordChar(ch: char) {
    ('a' <= ch <= 'z') || ('A' <= ch <= 'Z') || ('0' <= ch <= '9') || ch == '_'
  }

  /** Go's unicode.IsSpace, the characters strings.TrimSpace removes. */
  predicate IsSpace(ch: char) {
    var n := ch as int;
    (9 <= n <= 13) || n == 32 || n == 0x85 || n == 0xA0 || n == 0x1680
    || (0x2000 <= n <= 0x200A) || n == 0x2028 || n == 0x2029 || n == 0x202F
    || n == 0x205F || n == 0x3000
  }

  // ---------------------------------------------------------------------------
  // strings.Contains

  /** `pat` occurs in `s` starting at position `i`. */
  predicate OccursAt(s: string, pat: string, i: nat) {
    i + |pat| <= |s| && s[i..i + |pat|] == pat
  }

  /** Scans positions i, i+1, ... of `s` for an occurrence of `pat`. */
  function ContainsFrom(s: string, pat: string, i: nat): bool
    requires i <= |s|
    decreases |s| - i
  {
    if OccursAt(s, pat, i) then true
    else if i == |s| then false
    else ContainsFrom(s, pat, i + 1)
  }

  /** strings.Contains: whether `pat` is a substring of `s`. */
  function Contains(s: string, pat: string): bool {
    ContainsFrom(s, pat, 0)
  }

  /** The scan from i finds an occurrence exactly when one starts at or after i. */
  lemma {:induction false} ContainsFromSpec(s: string, pat: string, i: nat)
    requires i <= |s|
    ensures ContainsFrom(s, pat, i) <==> exists j: nat :: i <= j && OccursAt(s, pat, j)
    decreases |s| - i
  {
    if !OccursAt(s, pat, i) && i < |s| {
      ContainsFromSpec(s, pat, i + 1);
    }
  }

  /** Contains holds exactly when `pat` occurs somewhere (the empty pattern always does). */
  lemma ContainsSpec(s: string, pat: string)
    ensures Contains(s, pat) <==> exists j: nat :: OccursAt(s, pat, j)
  {
    ContainsFromSpec(s, pat, 0);
  }

  /** A one-character pattern is contained exactly when the character occurs. */
  lemma ContainsChar(s: string, c: char)
    ensures Contains(s, [c]) <==> c in s
  {
    ContainsSpec(s, [c]);
    if c in s {
      var j :| 0 <= j < |s| && s[j] == c;
      assert s[j..j + 1] == [c];
      assert OccursAt(s, [c], j);
    }
    if Contains(s, [c]) {
      var j: nat :| OccursAt(s, [c], j);
      assert s[j] == s[j..j + 1][0];
    }
  }

  // ---------------------------------------------------------------------------
  // strings.Index with a one-character separator

  /** Position of the first `c` in `s`, if any. */
  function IndexOf(s: string, c: char): (r: Option<nat>)
    ensures r.Some? ==> r.value < |s| && s[r.value] == c && c !in s[..r.value]
    ensures r.None? ==> c !in s
  {
    if s == [] then None
    else if s[0] == c then Some(0)
    else match IndexOf(s[1..], c)
      case None => None
      case Some(k) =>
        assert s[..k + 1] == [s[0]] + s[1..][..k];
        Some(k + 1)
  }

  // ---------------------------------------------------------------------------
  // strings.Split and strings.Join

  /** strings.Split(s, sep) for a one-character separator: the pieces between separators. */
  function Split(s: string, sep: char): (fields: seq<string>)
    ensures |fields| >= 1
    ensures forall f <- fields :: sep !in f
    decreases |s|
  {
    match IndexOf(s, sep)
    case None => [s]
    case Some(k) => [s[..k]] + Split(s[k + 1..], sep)
  }

  /** strings.Join: the parts with `sep` between consecutive ones. */
  function Join(parts: seq<string>, sep: string): string
  {
    if |parts| == 0 then ""
    else if |parts| == 1 then parts[0]
    else parts[0] + sep + Join(parts[1..], sep)
  }

  /** `s` with every `c` replaced by `d`. */
  function Replace(s: string, c: char, d: char): (t: string)
    ensures |t| == |s|
    ensures forall i :: 0 <= i < |s| ==> t[i] == (if s[i] == c then d else s[i])
  {
    seq(|s|, i requires 0 <= i < |s| => if s[i] == c then d else s[i])
  }

  /** Splitting on `c` and joining with `d` replaces every `c` by `d`. */
  lemma {:induction false} JoinSplitReplace(s: string, c: char, d: char)
    ensures Join(Split(s, c), [d]) == Replace(s, c, d)
    decreases |s|
  {
    match IndexOf(s, c)
    case None =>
      assert Split(s, c) == [s];
      assert Replace(s, c, d) == s;
    case Some(k) =>
      var rest := s[k + 1..];
      assert Split(s, c) == [s[..k]] + Split(rest, c);
      assert Join(Split(s, c), [d]) == s[..k] + [d] + Join(Split(rest, c), [d]);
      JoinSplitReplace(rest, c, d);
      var rhs := s[..k] + [d] + Replace(rest, c, d);
      assert |rhs| == |s|;
      forall i | 0 <= i < |s| ensures Replace(s, c, d)[i] == rhs[i] {
        if i < k {
          assert s[..k][i] == s[i];
        } else if i > k {
          assert rest[i - k - 1] == s[i];
        }
      }
      assert Replace(s, c, d) == rhs;
  }

  /** The split pieces, put back together with the separator, give the original text. */
  lemma JoinSplit(s: string, sep: char)
    ensures Join(Split(s, sep), [sep]) == s
  {
    JoinSplitReplace(s, sep, sep);
    assert Replace(s, sep, sep) == s;
  }

  /** Splitting text that starts with a separator-free field peels that field off. */
  lemma SplitCons(p: string, s: string, sep: char)
    requires sep !in p
    ensures Split(p + [sep] + s, sep) == [p] + Split(s, sep)
  {
    var t := p + [sep] + s;
    assert t[|p|] == sep;
    assert t[..|p|] == p;
    assert t[|p| + 1..] == s;
  }

  /** The number of fields is one more than the number of separators. */
  lemma {:induction false} SplitLength(s: string, sep: char)
    ensures |Split(s, sep)| == multiset(s)[sep] + 1
    decreases |s|
  {
    match IndexOf(s, sep)
    case None =>
    case Some(k) =>
      SplitLength(s[k + 1..], sep);
      assert s == s[..k] + [sep] + s[k + 1..];
      assert multiset(s) == multiset(s[..k]) + multiset([sep]) + multiset(s[k + 1..]) by {
        calc {
          multiset(s);
          multiset(s[..k] + [sep] + s[k + 1..]);
          multiset(s[..k] + [sep]) + multiset(s[k + 1..]);
          multiset(s[..k]) + multiset([sep]) + multiset(s[k + 1..]);
        }
      }
      assert multiset(s[..k])[sep] == 0;
  }

  // ---------------------------------------------------------------------------
  // strings.TrimSpace

  /** First position at or after `i` that is not white space. */
  function SkipSpace(s: string, i: nat): (k: nat)
    requires i <= |s|
    ensures i <= k <= |s|
    ensures forall m :: i <= m < k ==> IsSpace(s[m])
    ensures k == |s| || !IsSpace(s[k])
    decreases |s| - i
  {
    if i == |s| || !IsSpace(s[i]) then i else SkipSpace(s, i + 1)
  }

  /** Last cut point at or before `j` (and not before `lo`) preceded by a non-space. */
  function SkipSpaceBack(s: string, lo: nat, j: nat): (k: nat)
    requires lo <= j <= |s|
    ensures lo <= k <= j
    ensures forall m :: k <= m < j ==> IsSpace(s[m])
    ensures k == lo || !IsSpace(s[k - 1])
    decreases j
  {
    if j == lo || !IsSpace(s[j - 1]) then j else SkipSpaceBack(s, lo, j - 1)
  }

  /** The bounds [lo, hi) that strings.TrimSpace keeps. */
  function TrimBounds(s: string): (b: (nat, nat))
    ensures b.0 <= b.1 <= |s|
    ensures forall m :: 0 <= m < b.0 ==> IsSpace(s[m])
    ensures forall m :: b.1 <= m < |s| ==> IsSpace(s[m])
    ensures b.0 < b.1 ==> !IsSpace(s[b.0]) && !IsSpace(s[b.1 - 1])
  {
    var lo := SkipSpace(s, 0);
    (lo, SkipSpaceBack(s, lo, |s|))
  }

  /** Text that neither starts nor ends with white space. */
  predicate Trimmed(s: string) {
    s == [] || (!IsSpace(s[0]) && !IsSpace(s[|s| - 1]))
  }

  /** strings.TrimSpace: `s` without its leading and trailing white space. */
  function TrimSpace(s: string): (t: string)
    ensures Trimmed(t)
    ensures |t| <= |s|
    ensures Trimmed(s) ==> t == s
    ensures exists lo, hi :: 0 <= lo <= hi <= |s| && t == s[lo..hi]
                             && (forall m :: 0 <= m < lo ==> IsSpace(s[m]))
                             && (forall m :: hi <= m < |s| ==> IsSpace(s[m]))
  {
    var b := TrimBounds(s);
    assert Trimmed(s) && s != [] ==> b.0 == 0 && b.1 == |s|;
    s[b.0..b.1]
  }

  /** Trimming twice is trimming once. */
  lemma TrimSpaceIdempotent(s: string)
    ensures TrimSpace(TrimSpace(s)) == TrimSpace(s)
  {
  }

  // ---------------------------------------------------------------------------
  // `\w+`: maximal runs of word characters

  /** End of the run of word characters that starts at `i`. */
  function RunEnd(s: string, i: nat): (k: nat)
    requires i <= |s|
    ensures i <= k <= |s|
    ensures forall m :: i <= m < k ==> IsWordChar(s[m])
    ensures k == |s| || !IsWordChar(s[k])
    decreases |s| - i
  {
    if i == |s| || !IsWordChar(s[i]) then i else RunEnd(s, i + 1)
  }

  /** The `\w+` tokens of s[i..], left to right, as FindAllString returns them. */
  function WordsFrom(s: string, i: nat): seq<string>
    requires i <= |s|
    decreases |s| - i
  {
    if i == |s| then []
    else if !IsWordChar(s[i]) then WordsFrom(s, i + 1)
    else
      var k := RunEnd(s, i);
      [s[i..k]] + WordsFrom(s, k)
  }

  /** Every token is a non-empty run of word characters. */
  lemma {:induction false} WordsFromAreWords(s: string, i: nat)
    requires i <= |s|
    ensures forall w <- WordsFrom(s, i) :: |w| > 0 && forall ch <- w :: IsWordChar(ch)
    decreases |s| - i
  {
    if i < |s| {
      if !IsWordChar(s[i]) {
        WordsFromAreWords(s, i + 1);
      } else {
        var k := RunEnd(s, i);
        WordsFromAreWords(s, k);
        assert forall ch <- s[i..k] :: IsWordChar(ch);
      }
    }
  }

  /** All `\w+` tokens of `s`. */
  function Words(s: string): seq<string> {
    WordsFrom(s, 0)
  }

  /** len(FindAllString(s, -1)) for the pattern `\w+`. */
  function WordCount(s: string): nat {
    |Words(s)|
  }

  /** A word run begins at `i`: a word character with no word character just before it. */
  predicate RunStartsAt(s: string, i: nat)
    requires i < |s|
  {
    IsWordChar(s[i]) && (i == 0 || !IsWordChar(s[i - 1]))
  }

  /** Reference count: the number of positions at or after `i` where a word run begins. */
  function RunStartsFrom(s: string, i: nat): nat
    requires i <= |s|
    decreases |s| - i
  {
    if i == |s| then 0
    else (if RunStartsAt(s, i) then 1 else 0) + RunStartsFrom(s, i + 1)
  }

  /** Inside a run no new run begins. */
  lemma {:induction false} NoStartsInsideRun(s: string, i: nat, k: nat)
    requires 0 < i <= k <= |s|
    requires forall m :: i - 1 <= m < k ==> IsWordChar(s[m])
    ensures RunStartsFrom(s, i) == RunStartsFrom(s, k)
    decreases k - i
  {
    if i < k {
      assert !RunStartsAt(s, i);
      NoStartsInsideRun(s, i + 1, k);
    }
  }

  /** The tokenizer counts exactly the run starts, from any position not inside a run. */
  lemma {:induction false} WordsFromCountsRunStarts(s: string, i: nat)
    requires i <= |s|
    requires i == 0 || i == |s| || !IsWordChar(s[i - 1]) || !IsWordChar(s[i])
    ensures |WordsFrom(s, i)| == RunStartsFrom(s, i)
    decreases |s| - i
  {
    if i == |s| {
    } else if !IsWordChar(s[i]) {
      assert !RunStartsAt(s, i);
      WordsFromCountsRunStarts(s, i + 1);
    } else {
      var k := RunEnd(s, i);
      assert RunStartsAt(s, i);
      NoStartsInsideRun(s, i + 1, k);
      WordsFromCountsRunStarts(s, k);
    }
  }

  /** WordCount is the number of maximal runs of word characters. */
  lemma WordCountIsRunStarts(s: string)
    ensures WordCount(s) == RunStartsFrom(s, 0)
  {
    WordsFromCountsRunStarts(s, 0);
  }

  /** From a position not inside a run, no run begins exactly when no word character follows. */
  lemma {:induction false} RunStartsNone(s: string, i: nat)
    requires i <= |s|
    requires i == 0 || i == |s| || !IsWordChar(s[i - 1])
    ensures RunStartsFrom(s, i) == 0 <==> forall m :: i <= m < |s| ==> !IsWordChar(s[m])
    decreases |s| - i
  {
    if i < |s| {
      if IsWordChar(s[i]) {
        assert RunStartsAt(s, i);
      } else {
        RunStartsNone(s, i + 1);
      }
    }
  }

  /** A reply with no word character at all (empty, blank, punctuation only) has no words. */
  lemma WordCountZero(s: string)
    ensures WordCount(s) == 0 <==> forall m :: 0 <= m < |s| ==> !IsWordChar(s[m])
  {
    WordCountIsRunStarts(s);
    RunStartsNone(s, 0);
  }

  /** The words of the examples listed for the tokenizer. */
  lemma WordCountExamples()
    ensures WordCount("") == 0
    ensures WordCount("   ") == 0
    ensures WordCount("hello, world!!") == 2
  {
    WordCountZero("");
    WordCountZero("   ");
    var s := "hello, world!!";
    assert RunEnd(s, 7) == 12;
    assert RunEnd(s, 0) == 5;
    assert WordsFrom(s, 12) == [];
    assert WordsFrom(s, 5) == WordsFrom(s, 7);
  }

  // ---------------------------------------------------------------------------
  // `http[s]://\w+`: the class [s] is the single letter s

  /** The link scheme the pattern spells out. */
  const HttpsScheme: string := "https://"

  /** A match of `http[s]://\w+` begins at `i`: the scheme, then a word character. */
  predicate LinkAt(s: string, i: nat) {
    OccursAt(s, HttpsScheme, i) && i + |HttpsScheme| < |s| && IsWordChar(s[i + |HttpsScheme|])
  }

  /** Scans positions i, i+1, ... for the start of a link match. */
  function MatchesLinkFrom(s: string, i: nat): bool
    requires i <= |s|
    decreases |s| - i
  {
    if LinkAt(s, i) then true
    else if i == |s| then false
    else MatchesLinkFrom(s, i + 1)
  }

  /** MatchString for `http[s]://\w+`; the match need only begin somewhere in `s`. */
  function MatchesLink(s: string): bool {
    MatchesLinkFrom(s, 0)
  }

  /** The scan from i succeeds exactly when a link match begins at or after i. */
  lemma {:induction false} MatchesLinkFromSpec(s: string, i: nat)
    requires i <= |s|
    ensures MatchesLinkFrom(s, i) <==> exists j: nat :: i <= j && LinkAt(s, j)
    decreases |s| - i
  {
    if !LinkAt(s, i) && i < |s| {
      MatchesLinkFromSpec(s, i + 1);
    }
  }

  /** MatchesLink holds exactly when `https://` followed by a word character occurs. */
  lemma MatchesLinkSpec(s: string)
    ensures MatchesLink(s) <==> exists j: nat :: LinkAt(s, j)
  {
    MatchesLinkFromSpec(s, 0);
  }

  /** The examples: an https link matches; a plain http link and a broken scheme do not. */
  lemma LinkExamples()
    ensures MatchesLink("see https://x.example/y")
    ensures !MatchesLink("see http//bad")
    ensures !MatchesLink("http://x")
  {
    assert LinkAt("see https://x.example/y", 4);
    MatchesLinkSpec("see https://x.example/y");
    NoLinkWithoutColon("see http//bad");
  }

  /** A link match has the scheme's colon five characters in. */
  lemma LinkHasColon(s: string, j: nat)
    requires LinkAt(s, j)
    ensures s[j + 5] == ':'
  {
    assert s[j..j + 8][5] == ':';
  }

  /** Every link match contains the colon of its scheme. */
  lemma NoLinkWithoutColon(s: string)
    requires ':' !in s
    ensures !MatchesLink(s)
  {
    MatchesLinkSpec(s);
    forall j: nat | LinkAt(s, j) ensures false {
      LinkHasColon(s, j);
    }
  }
}
