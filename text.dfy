/** ASCII character classes and case mapping, and the two ways the library
    glues strings together (`joined(separator:)` and plain concatenation). */
module Text {

  predicate IsUpper(c: char) { 'A' <= c <= 'Z' }

  predicate IsLower(c: char) { 'a' <= c <= 'z' }

  function ToLower(c: char): (r: char)
    ensures !IsUpper(r)
    ensures IsUpper(c) ==> IsLower(r)
    ensures !IsUpper(c) ==> r == c
  {
    if IsUpper(c) then (c as int + 32) as char else c
  }

  function ToUpper(c: char): (r: char)
    ensures !IsLower(r)
    ensures IsLower(c) ==> IsUpper(r)
    ensures !IsLower(c) ==> r == c
  {
    if IsLower(c) then (c as int - 32) as char else c
  }

  /** `lowercased()`, restricted to ASCII. */
  function Lower(s: string): (r: string)
    ensures |r| == |s|
  {
    seq(|s|, i requires 0 <= i < |s| => ToLower(s[i]))
  }

  /** `uppercased()`, restricted to ASCII. */
  function Upper(s: string): (r: string)
    ensures |r| == |s|
    ensures HasNoLower(r)
  {
    seq(|s|, i requires 0 <= i < |s| => ToUpper(s[i]))
  }

  predicate HasNoUpper(s: string) {
    forall i :: 0 <= i < |s| ==> !IsUpper(s[i])
  }

  predicate HasNoLower(s: string) {
    forall i :: 0 <= i < |s| ==> !IsLower(s[i])
  }

  predicate Contains(s: string, c: char) {
    exists i :: 0 <= i < |s| && s[i] == c
  }

  lemma LowerHasNoUpper(s: string)
    ensures HasNoUpper(Lower(s))
  {
  }

  lemma LowerOfNoUpper(s: string)
    requires HasNoUpper(s)
    ensures Lower(s) == s
  {
  }

  lemma LowerAppend(a: string, b: string)
    ensures Lower(a + b) == Lower(a) + Lower(b)
  {
  }

  /** Lowercases every word of a list. */
  function LowerAll(words: seq<string>): (r: seq<string>)
    ensures |r| == |words|
    ensures forall i :: 0 <= i < |words| ==> r[i] == Lower(words[i])
  {
    seq(|words|, i requires 0 <= i < |words| => Lower(words[i]))
  }

  /** Swift's `joined(separator:)` on an array of strings. */
  function Join(words: seq<string>, sep: string): string
  {
    if |words| == 0 then ""
    else if |words| == 1 then words[0]
    else words[0] + sep + Join(words[1..], sep)
  }

  /** The words without any separator. */
  function Concat(words: seq<string>): string
  {
    if |words| == 0 then "" else words[0] + Concat(words[1..])
  }

  lemma {:induction false} JoinHasNoUpper(words: seq<string>, sep: string)
    requires forall i :: 0 <= i < |words| ==> HasNoUpper(words[i])
    requires HasNoUpper(sep)
    ensures HasNoUpper(Join(words, sep))
  {
    if |words| > 1 {
      JoinHasNoUpper(words[1..], sep);
      var rest := Join(words[1..], sep);
      var r := words[0] + sep + rest;
      forall i | 0 <= i < |r| ensures !IsUpper(r[i]) {
        if i < |words[0]| {
          assert r[i] == words[0][i];
        } else if i < |words[0]| + |sep| {
          assert r[i] == sep[i - |words[0]|];
        } else {
          assert r[i] == rest[i - |words[0]| - |sep|];
        }
      }
    }
  }

  lemma {:induction false} ConcatLowerAll(words: seq<string>)
    ensures Concat(LowerAll(words)) == Lower(Concat(words))
  {
    if |words| > 0 {
      assert LowerAll(words)[1..] == LowerAll(words[1..]);
      ConcatLowerAll(words[1..]);
      LowerAppend(words[0], Concat(words[1..]));
    }
  }

  /** A character in no word and not in the separator is not in the join. */
  lemma {:induction false} JoinAvoids(words: seq<string>, sep: string, c: char)
    requires forall i :: 0 <= i < |words| ==> !Contains(words[i], c)
    requires !Contains(sep, c)
    ensures !Contains(Join(words, sep), c)
  {
    if |words| > 1 {
      JoinAvoids(words[1..], sep, c);
      var rest := Join(words[1..], sep);
      var r := words[0] + sep + rest;
      forall i | 0 <= i < |r| ensures r[i] != c {
        if i < |words[0]| {
          assert r[i] == words[0][i];
        } else if i < |words[0]| + |sep| {
          assert r[i] == sep[i - |words[0]|];
        } else {
          assert r[i] == rest[i - |words[0]| - |sep|];
        }
      }
    }
  }

  /** The first position of `c` in `s`, or `|s|` when `c` does not occur. */
  function FirstIndex(s: string, c: char): (i: nat)
    ensures i <= |s|
    ensures i < |s| ==> s[i] == c
    ensures forall j :: 0 <= j < i ==> s[j] != c
  {
    if |s| == 0 then 0
    else if s[0] == c then 0
    else 1 + FirstIndex(s[1..], c)
  }

  /** Splits `s` at every occurrence of `c`: the inverse of joining with `c`. */
  function Split(s: string, c: char): (parts: seq<string>)
    ensures |parts| > 0
    decreases |s|
  {
    var i := FirstIndex(s, c);
    if i == |s| then [s] else [s[..i]] + Split(s[i + 1..], c)
  }

  /** When no word contains the separator character, splitting the joined
      string gives the words back. */
  lemma {:induction false} SplitJoin(words: seq<string>, sep: char)
    requires |words| > 0
    requires forall i :: 0 <= i < |words| ==> !Contains(words[i], sep)
    ensures Split(Join(words, [sep]), sep) == words
  {
    var w := words[0];
    var s := Join(words, [sep]);
    var i := FirstIndex(s, sep);
    if |words| > 1 {
      var rest := Join(words[1..], [sep]);
      assert s == w + [sep] + rest;
      assert s[|w|] == sep;
      assert i == |w|;
      assert s[..i] == w;
      assert s[i + 1..] == rest;
      SplitJoin(words[1..], sep);
      assert words == [w] + words[1..];
    }
  }
}
