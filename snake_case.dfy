/** camelCase to snake_case conversion (`String.convertToSnakeCase`).

    The source walks the string with two searches: the next uppercase letter
    from the current search position, then the next lowercase letter from that
    capital. Each uppercase hit is a word boundary; when the lowercase letter
    is not right after the capital, the run of capitals is a word of its own
    and a second boundary falls just before the lowercase letter's capital.
    `Scan` is the same walk as a recursive function of the loop state; the
    method keeps the source's loop and is proved to record the same ranges,
    and the boundary rules are proved about `Scan` for every input.
    Character classes are ASCII only. */
module SnakeCase {
  import opened Text

  /** `rangeOfCharacter(from: uppercaseLetters, range: from..<end)`: the first
      uppercase position at or after `from`, or `|s|` when there is none. */
  function NextUpper(s: string, from: nat): (u: nat)
    requires from <= |s|
    ensures from <= u <= |s|
    ensures u < |s| ==> IsUpper(s[u])
    decreases |s| - from
  {
    if from == |s| then |s|
    else if IsUpper(s[from]) then from
    else NextUpper(s, from + 1)
  }

  /** Nothing before the hit is uppercase: it is the first one. */
  lemma {:induction false} NextUpperIsFirst(s: string, from: nat)
    requires from <= |s|
    ensures forall i :: from <= i < NextUpper(s, from) ==> !IsUpper(s[i])
    decreases |s| - from
  {
    if from < |s| && !IsUpper(s[from]) {
      NextUpperIsFirst(s, from + 1);
    }
  }

  /** When nothing from `from` on is uppercase, the search runs off the end. */
  lemma {:induction false} NextUpperNone(s: string, from: nat)
    requires from <= |s|
    requires forall i :: from <= i < |s| ==> !IsUpper(s[i])
    ensures NextUpper(s, from) == |s|
    decreases |s| - from
  {
    if from < |s| {
      NextUpperNone(s, from + 1);
    }
  }

  /** The search stops at the first capital. */
  lemma {:induction false} NextUpperAt(s: string, from: nat, u: nat)
    requires from <= u < |s| && IsUpper(s[u])
    requires forall i :: from <= i < u ==> !IsUpper(s[i])
    ensures NextUpper(s, from) == u
    decreases u - from
  {
    if from < u {
      NextUpperAt(s, from + 1, u);
    }
  }

  /** The same search for a lowercase letter. */
  function NextLower(s: string, from: nat): (l: nat)
    requires from <= |s|
    ensures from <= l <= |s|
    ensures l < |s| ==> IsLower(s[l])
    decreases |s| - from
  {
    if from == |s| then |s|
    else if IsLower(s[from]) then from
    else NextLower(s, from + 1)
  }

  lemma {:induction false} NextLowerIsFirst(s: string, from: nat)
    requires from <= |s|
    ensures forall i :: from <= i < NextLower(s, from) ==> !IsLower(s[i])
    decreases |s| - from
  {
    if from < |s| && !IsLower(s[from]) {
      NextLowerIsFirst(s, from + 1);
    }
  }

  lemma {:induction false} NextLowerAt(s: string, from: nat, l: nat)
    requires from <= l < |s| && IsLower(s[l])
    requires forall i :: from <= i < l ==> !IsLower(s[i])
    ensures NextLower(s, from) == l
    decreases l - from
  {
    if from < l {
      NextLowerAt(s, from + 1, l);
    }
  }

  lemma {:induction false} NextLowerNone(s: string, from: nat)
    requires from <= |s|
    requires forall i :: from <= i < |s| ==> !IsLower(s[i])
    ensures NextLower(s, from) == |s|
    decreases |s| - from
  {
    if from < |s| {
      NextLowerNone(s, from + 1);
    }
  }

  /** The word ranges the scan produces from a loop state: `start` is where
      the current word began and `lo` the lower bound of the search range. */
  function Scan(s: string, lo: nat, start: nat): seq<(nat, nat)>
    requires start < lo <= |s|
    decreases |s| - lo
  {
    var u := NextUpper(s, lo);
    if u == |s| then [(start, |s|)]
    else
      var l := NextLower(s, u);
      if l == |s| then [(start, u), (u, |s|)]
      else if l == u + 1 then [(start, u)] + Scan(s, l + 1, u)
      else [(start, u), (u, l - 1)] + Scan(s, l + 1, l - 1)
  }

  /** The scan's step when a lowercase letter directly follows the capital. */
  lemma ScanWordStep(s: string, lo: nat, start: nat)
    requires start < lo <= |s|
    requires NextUpper(s, lo) < |s| && NextLower(s, NextUpper(s, lo)) == NextUpper(s, lo) + 1 < |s|
    ensures Scan(s, lo, start) == [(start, NextUpper(s, lo))] + Scan(s, NextUpper(s, lo) + 2, NextUpper(s, lo))
  {
  }

  /** The scan's step over a run of capitals before a lowercase letter. */
  lemma ScanAcronymStep(s: string, lo: nat, start: nat)
    requires start < lo <= |s|
    requires NextUpper(s, lo) < |s| && NextUpper(s, lo) + 1 != NextLower(s, NextUpper(s, lo)) < |s|
    ensures var u, l := NextUpper(s, lo), NextLower(s, NextUpper(s, lo));
            Scan(s, lo, start) == [(start, u), (u, l - 1)] + Scan(s, l + 1, l - 1)
  {
  }

  /** The ranges are non-empty and contiguous, from `start` to `n`. */
  predicate Tiling(rs: seq<(nat, nat)>, start: nat, n: nat)
    decreases |rs|
  {
    && |rs| > 0 && rs[0].0 == start && start < rs[0].1
    && if |rs| == 1 then rs[0].1 == n else Tiling(rs[1..], rs[0].1, n)
  }

  lemma {:induction false} TilingWithin(rs: seq<(nat, nat)>, start: nat, n: nat)
    requires Tiling(rs, start, n)
    ensures start < n
    ensures RangesWithin(rs, n)
    decreases |rs|
  {
    if |rs| > 1 {
      TilingWithin(rs[1..], rs[0].1, n);
      assert forall i :: 1 <= i < |rs| ==> rs[i] == rs[1..][i - 1];
    }
  }

  lemma TilingCons(r: (nat, nat), rs: seq<(nat, nat)>, start: nat, n: nat)
    requires r.0 == start < r.1
    requires Tiling(rs, r.1, n)
    ensures Tiling([r] + rs, start, n)
  {
    assert ([r] + rs)[1..] == rs;
  }

  lemma {:induction false} ScanTiles(s: string, lo: nat, start: nat)
    requires start < lo <= |s|
    ensures Tiling(Scan(s, lo, start), start, |s|)
    decreases |s| - lo
  {
    var u := NextUpper(s, lo);
    if u < |s| {
      var l := NextLower(s, u);
      if l == |s| {
        TilingCons((start, u), [(u, |s|)], start, |s|);
      } else if l == u + 1 {
        ScanTiles(s, l + 1, u);
        TilingWordStep(s, lo, start);
      } else {
        ScanTiles(s, l + 1, l - 1);
        TilingAcronymStep(s, lo, start);
      }
    }
  }

  lemma TilingWordStep(s: string, lo: nat, start: nat)
    requires start < lo <= |s|
    requires NextUpper(s, lo) < |s| && NextLower(s, NextUpper(s, lo)) == NextUpper(s, lo) + 1 < |s|
    requires Tiling(Scan(s, NextUpper(s, lo) + 2, NextUpper(s, lo)), NextUpper(s, lo), |s|)
    ensures Tiling(Scan(s, lo, start), start, |s|)
  {
    var u := NextUpper(s, lo);
    ScanWordStep(s, lo, start);
    TilingCons((start, u), Scan(s, u + 2, u), start, |s|);
  }

  lemma TilingAcronymStep(s: string, lo: nat, start: nat)
    requires start < lo <= |s|
    requires NextUpper(s, lo) < |s| && NextUpper(s, lo) + 1 != NextLower(s, NextUpper(s, lo)) < |s|
    requires var l := NextLower(s, NextUpper(s, lo)); Tiling(Scan(s, l + 1, l - 1), l - 1, |s|)
    ensures Tiling(Scan(s, lo, start), start, |s|)
  {
    var u := NextUpper(s, lo);
    var l := NextLower(s, u);
    var rest := Scan(s, l + 1, l - 1);
    ScanAcronymStep(s, lo, start);
    TilingCons((u, l - 1), rest, u, |s|);
    TilingCons((start, u), [(u, l - 1)] + rest, start, |s|);
    assert [(start, u), (u, l - 1)] + rest == [(start, u)] + ([(u, l - 1)] + rest);
  }

  predicate RangesWithin(rs: seq<(nat, nat)>, n: nat) {
    forall i :: 0 <= i < |rs| ==> rs[i].0 <= rs[i].1 <= n
  }

  /** `self[range]` for every recorded range. */
  function Slices(s: string, rs: seq<(nat, nat)>): (ws: seq<string>)
    requires RangesWithin(rs, |s|)
    ensures |ws| == |rs|
  {
    seq(|rs|, i requires 0 <= i < |rs| => s[rs[i].0..rs[i].1])
  }

  /** The word ranges of a non-empty input: the scan from its initial state. */
  function WordRanges(s: string): seq<(nat, nat)>
    requires |s| > 0
  {
    Scan(s, 1, 0)
  }

  function Words(s: string): (ws: seq<string>)
    ensures |s| > 0 ==> |ws| > 0
  {
    if |s| == 0 then []
    else
      ScanTiles(s, 1, 0);
      TilingWithin(WordRanges(s), 0, |s|);
      Slices(s, WordRanges(s))
  }

  /** The word at position `k` is the slice of its range. */
  lemma WordAt(s: string, k: nat)
    requires |s| > 0 && k < |WordRanges(s)|
    ensures |Words(s)| == |WordRanges(s)|
    ensures var r := WordRanges(s)[k]; r.0 <= r.1 <= |s| && Words(s)[k] == s[r.0..r.1]
  {
    ScanTiles(s, 1, 0);
    TilingWithin(WordRanges(s), 0, |s|);
  }

  /** The result of `convertToSnakeCase`. */
  function SnakeCase(s: string): string
  {
    if |s| == 0 then s else Join(LowerAll(Words(s)), "_")
  }

  /** `convertToSnakeCase`: the empty string is returned as is; otherwise the
      word ranges are found, each word is lowercased and the words are joined
      with `_`. */
  method ConvertToSnakeCase(s: string) returns (r: string)
    ensures r == SnakeCase(s)
    ensures HasNoUpper(r)
    ensures HasNoUpper(s) ==> r == s
  {
    if |s| == 0 {
      return s;
    }
    var words := FindWordRanges(s);
    ScanTiles(s, 1, 0);
    TilingWithin(words, 0, |s|);
    r := Join(LowerAll(Slices(s, words)), "_");
    SnakeCaseHasNoUpper(s);
    if HasNoUpper(s) {
      NoUpperUnchanged(s);
    }
  }

  /** The source's loop: `wordStart` and the lower bound of the search range
      move forward, and each word found is recorded as a range. */
  method FindWordRanges(s: string) returns (words: seq<(nat, nat)>)
    requires |s| > 0
    ensures words == WordRanges(s)
  {
    words := [];
    var wordStart: nat := 0;
    var searchLo: nat := 1;
    while NextUpper(s, searchLo) < |s|
      invariant wordStart < searchLo <= |s|
      invariant Recorded(s, words, searchLo, wordStart)
      decreases |s| - searchLo
    {
      var upper := NextUpper(s, searchLo);
      var lower := NextLower(s, upper);
      ghost var before := words;
      words := words + [(wordStart, upper)];
      if lower == |s| {
        // No lowercase letter is left: the rest is the final word.
        AdvanceToEnd(s, before, searchLo, wordStart, upper);
        wordStart := upper;
        break;
      }
      if lower == upper + 1 {
        AdvanceWord(s, before, searchLo, wordStart, upper);
        wordStart := upper;
      } else {
        AdvanceAcronym(s, before, searchLo, wordStart, upper, lower);
        words := words + [(upper, lower - 1)];
        wordStart := lower - 1;
      }
      searchLo := lower + 1;
    }
    if NextUpper(s, searchLo) == |s| {
      ScanLast(s, searchLo, wordStart);
    }
    words := words + [(wordStart, |s|)];
  }

  /** The loop's bookkeeping: the ranges recorded so far followed by those
      the scan still produces from the loop state are all the word ranges. */
  ghost predicate Recorded(s: string, words: seq<(nat, nat)>, lo: nat, start: nat)
    requires |s| > 0
  {
    start < lo <= |s| && words + Scan(s, lo, start) == WordRanges(s)
  }

  /** An iteration that finds no lowercase letter after the capital: the
      capital starts the final word. */
  lemma AdvanceToEnd(s: string, words: seq<(nat, nat)>, lo: nat, start: nat, u: nat)
    requires |s| > 0 && Recorded(s, words, lo, start)
    requires u == NextUpper(s, lo) < |s| && NextLower(s, u) == |s|
    ensures words + [(start, u)] + [(u, |s|)] == WordRanges(s)
  {
    assert Scan(s, lo, start) == [(start, u)] + [(u, |s|)];
  }

  /** An iteration where a lowercase letter follows the capital: the capital
      starts the next word. */
  lemma AdvanceWord(s: string, words: seq<(nat, nat)>, lo: nat, start: nat, u: nat)
    requires |s| > 0 && Recorded(s, words, lo, start)
    requires u == NextUpper(s, lo) < |s| && NextLower(s, u) == u + 1 < |s|
    ensures Recorded(s, words + [(start, u)], u + 2, u)
  {
    ScanWordStep(s, lo, start);
  }

  /** An iteration that skips a run of capitals: the run but its last capital
      is a word, and that last capital starts the next one. */
  lemma AdvanceAcronym(s: string, words: seq<(nat, nat)>, lo: nat, start: nat, u: nat, l: nat)
    requires |s| > 0 && Recorded(s, words, lo, start)
    requires u == NextUpper(s, lo) < |s| && l == NextLower(s, u) < |s| && l != u + 1
    ensures Recorded(s, words + [(start, u)] + [(u, l - 1)], l + 1, l - 1)
  {
    ScanAcronymStep(s, lo, start);
    var rest := Scan(s, l + 1, l - 1);
    assert words + [(start, u)] + [(u, l - 1)] + rest == words + ([(start, u), (u, l - 1)] + rest);
  }

  /** With no capital left the scan closes the current word at the end. */
  lemma ScanLast(s: string, lo: nat, start: nat)
    requires start < lo <= |s| && NextUpper(s, lo) == |s|
    ensures Scan(s, lo, start) == [(start, |s|)]
  {
  }

  /** The uppercase search stops at or before any capital in its range. */
  lemma {:induction false} NextUpperAtMost(s: string, from: nat, i: nat)
    requires from <= i < |s| && IsUpper(s[i])
    ensures NextUpper(s, from) <= i
    decreases i - from
  {
    if from < i && !IsUpper(s[from]) {
      NextUpperAtMost(s, from + 1, i);
    }
  }

  /** The lowercase search stops at or before any lowercase letter in its
      range. */
  lemma {:induction false} NextLowerAtMost(s: string, from: nat, i: nat)
    requires from <= i < |s| && IsLower(s[i])
    ensures NextLower(s, from) <= i
    decreases i - from
  {
    if from < i && !IsLower(s[from]) {
      NextLowerAtMost(s, from + 1, i);
    }
  }

  /** One iteration of the scan that finds a capital and a lowercase letter
      after it: the search resumes right after that lowercase letter. */
  lemma ScanNext(s: string, lo: nat, start: nat) returns (pre: seq<(nat, nat)>, lo': nat, start': nat)
    requires start < lo <= |s|
    requires NextUpper(s, lo) < |s| && NextLower(s, NextUpper(s, lo)) < |s|
    ensures lo' == NextLower(s, NextUpper(s, lo)) + 1 && start' < lo'
    ensures Scan(s, lo, start) == pre + Scan(s, lo', start')
  {
    var u := NextUpper(s, lo);
    var l := NextLower(s, u);
    if l == u + 1 {
      ScanWordStep(s, lo, start);
      pre, lo', start' := [(start, u)], l + 1, u;
    } else {
      ScanAcronymStep(s, lo, start);
      pre, lo', start' := [(start, u), (u, l - 1)], l + 1, l - 1;
    }
  }

  /** One iteration of the scan that does not land on the capital at `i`
      stops, at the latest, right after the lowercase letter before it. */
  lemma ScanStepBefore(s: string, lo: nat, start: nat, i: nat)
      returns (pre: seq<(nat, nat)>, lo': nat, start': nat)
    requires start < lo <= i < |s|
    requires IsLower(s[i - 1]) && IsUpper(s[i]) && NextUpper(s, lo) != i
    ensures lo < lo' <= i && start' < lo'
    ensures Scan(s, lo, start) == pre + Scan(s, lo', start')
  {
    NextUpperAtMost(s, lo, i);
    NextLowerAtMost(s, NextUpper(s, lo), i - 1);
    pre, lo', start' := ScanNext(s, lo, start);
  }

  /** A capital right after a lowercase letter is where one of the scan's
      uppercase searches lands: from any earlier state the scan reaches a
      state whose search finds exactly that capital. */
  lemma {:induction false} ReachCapital(s: string, lo: nat, start: nat, i: nat)
      returns (pre: seq<(nat, nat)>, lo': nat, start': nat)
    requires start < lo <= i < |s|
    requires IsLower(s[i - 1]) && IsUpper(s[i])
    ensures start' < lo' <= i && NextUpper(s, lo') == i
    ensures Scan(s, lo, start) == pre + Scan(s, lo', start')
    decreases i - lo
  {
    if NextUpper(s, lo) == i {
      pre, lo', start' := [], lo, start;
    } else {
      var p, a, b := ScanStepBefore(s, lo, start, i);
      var q;
      q, lo', start' := ReachCapital(s, a, b, i);
      pre := p + q;
    }
  }

  /** The lower-to-upper rule: a capital between two lowercase letters ends
      one word and starts the next. */
  lemma CamelBoundary(s: string, i: nat)
    requires 1 <= i && i + 1 < |s|
    requires IsLower(s[i - 1]) && IsUpper(s[i]) && IsLower(s[i + 1])
    ensures exists k :: 0 <= k && k + 1 < |WordRanges(s)| && WordRanges(s)[k].1 == i && WordRanges(s)[k + 1].0 == i
  {
    var pre, start := CamelScan(s, i);
    var rest := Scan(s, i + 2, i);
    ScanTiles(s, i + 2, i);
    var rs := WordRanges(s);
    var k := |pre|;
    assert rs[k] == (start, i) && rs[k + 1] == rest[0];
  }

  /** The scan reaches that capital and closes the current word there. */
  lemma CamelScan(s: string, i: nat) returns (pre: seq<(nat, nat)>, start: nat)
    requires 1 <= i && i + 1 < |s|
    requires IsLower(s[i - 1]) && IsUpper(s[i]) && IsLower(s[i + 1])
    ensures WordRanges(s) == pre + [(start, i)] + Scan(s, i + 2, i)
  {
    var lo;
    pre, lo, start := ReachCapital(s, 1, 0, i);
    NextLowerAt(s, i, i + 1);
    ScanWordStep(s, lo, start);
    assert pre + [(start, i)] + Scan(s, i + 2, i) == pre + ([(start, i)] + Scan(s, i + 2, i));
  }

  /** The acronym rule: a run of two or more capitals between lowercase
      letters is a word without its last capital, and that capital starts the
      next word. */
  lemma AcronymBoundary(s: string, i: nat, j: nat)
    requires 1 <= i && i + 2 <= j < |s|
    requires IsLower(s[i - 1]) && IsLower(s[j])
    requires forall k :: i <= k < j ==> IsUpper(s[k])
    ensures exists k :: 0 <= k && k + 1 < |WordRanges(s)| && WordRanges(s)[k] == (i, j - 1) && WordRanges(s)[k + 1].0 == j - 1
  {
    var pre, start := AcronymScan(s, i, j);
    var rest := Scan(s, j + 1, j - 1);
    ScanTiles(s, j + 1, j - 1);
    var rs := WordRanges(s);
    var k := |pre| + 1;
    assert rs[k] == (i, j - 1) && rs[k + 1] == rest[0];
  }

  /** Hence the run without its last capital is one of the words. */
  lemma AcronymWord(s: string, i: nat, j: nat)
    requires 1 <= i && i + 2 <= j < |s|
    requires IsLower(s[i - 1]) && IsLower(s[j])
    requires forall k :: i <= k < j ==> IsUpper(s[k])
    ensures exists k :: 0 <= k < |Words(s)| && Words(s)[k] == s[i..j - 1]
  {
    var pre, start := AcronymScan(s, i, j);
    var k := |pre| + 1;
    assert WordRanges(s)[k] == (i, j - 1);
    WordAt(s, k);
    assert Words(s)[k] == s[i..j - 1];
  }

  /** The scan reaches the run of capitals and records it without its last
      capital. */
  lemma AcronymScan(s: string, i: nat, j: nat) returns (pre: seq<(nat, nat)>, start: nat)
    requires 1 <= i && i + 2 <= j < |s|
    requires IsLower(s[i - 1]) && IsLower(s[j])
    requires forall k :: i <= k < j ==> IsUpper(s[k])
    ensures WordRanges(s) == pre + [(start, i), (i, j - 1)] + Scan(s, j + 1, j - 1)
  {
    var lo;
    pre, lo, start := ReachCapital(s, 1, 0, i);
    NextLowerAt(s, i, j);
    ScanAcronymStep(s, lo, start);
    assert pre + [(start, i), (i, j - 1)] + Scan(s, j + 1, j - 1)
        == pre + ([(start, i), (i, j - 1)] + Scan(s, j + 1, j - 1));
  }

  /** The trailing rule: when no lowercase letter follows a capital that
      follows a lowercase letter, that capital starts the last word. */
  lemma TrailingBoundary(s: string, u: nat)
    requires 1 <= u < |s| && IsLower(s[u - 1]) && IsUpper(s[u])
    requires forall k :: u <= k < |s| ==> !IsLower(s[k])
    ensures var rs := WordRanges(s); |rs| > 0 && rs[|rs| - 1] == (u, |s|)
    ensures |Words(s)| > 0 && Words(s)[|Words(s)| - 1] == s[u..]
  {
    var pre, lo, start := ReachCapital(s, 1, 0, u);
    NextLowerNone(s, u);
    assert Scan(s, lo, start) == [(start, u), (u, |s|)];
    var rs := WordRanges(s);
    assert rs == pre + [(start, u), (u, |s|)];
    assert rs[|rs| - 1] == (u, |s|);
    WordAt(s, |rs| - 1);
  }

  /** Every word is lowercased before joining, and `_` is not a capital. */
  lemma SnakeCaseHasNoUpper(s: string)
    ensures HasNoUpper(SnakeCase(s))
  {
    if |s| > 0 {
      var lowered := LowerAll(Words(s));
      forall i | 0 <= i < |lowered| ensures HasNoUpper(lowered[i]) {
        LowerHasNoUpper(Words(s)[i]);
      }
      JoinHasNoUpper(lowered, "_");
    }
  }

  /** With no capital after the first character there is no boundary: the
      input is one word and only gets lowercased. */
  lemma SingleWord(s: string)
    requires |s| > 0 && HasNoUpper(s[1..])
    ensures Words(s) == [s]
    ensures SnakeCase(s) == Lower(s)
  {
    assert forall i :: 1 <= i < |s| ==> s[1..][i - 1] == s[i];
    NextUpperNone(s, 1);
    assert WordRanges(s) == [(0, |s|)];
    assert s[0..|s|] == s;
  }

  /** Input without capitals, such as `snake_case` or `teststring`, comes back
      unchanged. */
  lemma NoUpperUnchanged(s: string)
    requires HasNoUpper(s)
    ensures SnakeCase(s) == s
  {
    if |s| > 0 {
      SingleWord(s);
      LowerOfNoUpper(s);
    }
  }

  /** Conversion changes the input exactly when it holds a capital: this is
      what decides whether a label contributes a second key. */
  lemma SnakeCaseChangesIffUpper(s: string)
    ensures SnakeCase(s) == s <==> HasNoUpper(s)
  {
    SnakeCaseHasNoUpper(s);
    if HasNoUpper(s) {
      NoUpperUnchanged(s);
    }
  }

  /** Converting twice is converting once. */
  lemma SnakeCaseIdempotent(s: string)
    ensures SnakeCase(SnakeCase(s)) == SnakeCase(s)
  {
    SnakeCaseHasNoUpper(s);
    NoUpperUnchanged(SnakeCase(s));
  }

  /** The slices of a tiling put back together are the tiled part. */
  lemma {:induction false} TilingConcat(s: string, rs: seq<(nat, nat)>, start: nat)
    requires Tiling(rs, start, |s|)
    ensures RangesWithin(rs, |s|) && Concat(Slices(s, rs)) == s[start..]
    decreases |rs|
  {
    TilingWithin(rs, start, |s|);
    var m := rs[0].1;
    if |rs| == 1 {
      assert Slices(s, rs) == [s[start..m]];
      assert Concat(Slices(s, rs)) == s[start..m] + Concat([]);
    } else {
      TilingConcat(s, rs[1..], m);
      assert Slices(s, rs) == [s[start..m]] + Slices(s, rs[1..]);
      assert Slices(s, rs)[1..] == Slices(s, rs[1..]);
      assert s[start..] == s[start..m] + s[m..];
    }
  }

  /** Splitting into words loses no character. */
  lemma WordsConcat(s: string)
    ensures Concat(Words(s)) == s
  {
    if |s| > 0 {
      ScanTiles(s, 1, 0);
      TilingConcat(s, WordRanges(s), 0);
    }
  }

  /** For input without `_`, the `_` in the result are exactly the inserted
      separators: splitting at them gives the lowercased words, and removing
      them gives the lowercased input. */
  lemma SnakeCaseSeparators(s: string)
    requires |s| > 0 && !Contains(s, '_')
    ensures Split(SnakeCase(s), '_') == LowerAll(Words(s))
    ensures Concat(Split(SnakeCase(s), '_')) == Lower(s)
  {
    var words := Words(s);
    var lowered := LowerAll(words);
    ScanTiles(s, 1, 0);
    TilingWithin(WordRanges(s), 0, |s|);
    forall i | 0 <= i < |lowered| ensures !Contains(lowered[i], '_') {
      var r := WordRanges(s)[i];
      assert words[i] == s[r.0..r.1];
      forall k | 0 <= k < |lowered[i]| ensures lowered[i][k] != '_' {
        assert words[i][k] == s[r.0 + k];
      }
    }
    SplitJoin(lowered, '_');
    ConcatLowerAll(words);
    WordsConcat(s);
  }

  /** A word boundary at a lower-to-upper transition. */
  lemma CamelCaseWords()
    ensures Words("camelCase") == ["camel", "Case"]
  {
    var s := "camel" + "Case";
    assert s == "camelCase";
    NextUpperAt(s, 1, 5);
    NextLowerAt(s, 5, 6);
    NextUpperNone(s, 7);
    assert Scan(s, 7, 5) == [(5, 9)];
    assert Scan(s, 1, 0) == [(0, 5)] + Scan(s, 7, 5);
    assert WordRanges(s) == [(0, 5), (5, 9)];
    assert s[0..5] == "camel" && s[5..9] == "Case";
  }

  lemma CamelCaseExample()
    ensures SnakeCase("camelCase") == "camel_case"
  {
    CamelCaseWords();
    CamelCaseLowered();
    assert Join(["camel", "case"], "_") == "camel_case";
  }

  lemma CamelCaseLowered()
    ensures LowerAll(["camel", "Case"]) == ["camel", "case"]
  {
    assert Lower("camel") == "camel" && Lower("Case") == "case";
  }

  lemma MyPropertyWords()
    ensures Words("myProperty") == ["my", "Property"]
  {
    var s := "my" + "Property";
    assert s == "myProperty";
    NextUpperAt(s, 1, 2);
    NextLowerAt(s, 2, 3);
    NextUpperNone(s, 4);
    assert Scan(s, 4, 2) == [(2, 10)];
    assert Scan(s, 1, 0) == [(0, 2)] + Scan(s, 4, 2);
    assert WordRanges(s) == [(0, 2), (2, 10)];
    assert s[0..2] == "my" && s[2..10] == "Property";
  }

  lemma MyPropertyExample()
    ensures SnakeCase("myProperty") == "my_property"
  {
    MyPropertyWords();
    MyPropertyLowered();
    assert Join(["my", "property"], "_") == "my_property";
  }

  lemma MyPropertyLowered()
    ensures LowerAll(["my", "Property"]) == ["my", "property"]
  {
    assert Lower("my") == "my" && Lower("Property") == "property";
  }

  /** A run of capitals followed by a lowercase letter: the run without its
      last capital is a word of its own. */
  lemma AcronymWords()
    ensures Words("myURLProperty") == ["my", "URL", "Property"]
  {
    var s := "my" + "URL" + "Property";
    assert s == "myURLProperty";
    NextUpperAt(s, 1, 2);
    NextLowerAt(s, 2, 6);
    NextUpperNone(s, 7);
    assert Scan(s, 7, 5) == [(5, 13)];
    assert Scan(s, 1, 0) == [(0, 2), (2, 5)] + Scan(s, 7, 5);
    assert WordRanges(s) == [(0, 2), (2, 5), (5, 13)];
    assert s[0..2] == "my" && s[2..5] == "URL" && s[5..13] == "Property";
  }

  lemma AcronymExample()
    ensures SnakeCase("myURLProperty") == "my_url_property"
  {
    AcronymWords();
    AcronymLowered();
    assert Join(["my", "url", "property"], "_") == "my_url_property";
  }

  lemma AcronymLowered()
    ensures LowerAll(["my", "URL", "Property"]) == ["my", "url", "property"]
  {
    assert Lower("my") == "my" && Lower("URL") == "url" && Lower("Property") == "property";
  }

  /** Capitals with no lowercase letter after them end the input as one word. */
  lemma TrailingCapitalsWords()
    ensures Words("fooBAR") == ["foo", "BAR"]
  {
    var s := "foo" + "BAR";
    assert s == "fooBAR";
    NextUpperAt(s, 1, 3);
    NextLowerNone(s, 3);
    assert WordRanges(s) == [(0, 3), (3, 6)];
    assert s[0..3] == "foo" && s[3..6] == "BAR";
  }

  lemma TrailingCapitalsExample()
    ensures SnakeCase("fooBAR") == "foo_bar"
  {
    TrailingCapitalsWords();
    assert Lower("foo") == "foo" && Lower("BAR") == "bar";
    assert LowerAll(["foo", "BAR"]) == ["foo", "bar"];
  }
}
