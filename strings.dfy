/**
 * The JavaScript string primitives the application relies on, over `seq<char>`:
 * `trim`, the `\s` character class, `toLowerCase`/`toUpperCase` (ASCII letters),
 * `includes`, and `split`/`join` on a one-character separator.
 */
module Strings {

  /** The WhiteSpace and LineTerminator code points of ECMAScript: what `\s` matches and `trim` strips. */
  predicate IsSpace(c: char) {
    var n := c as int;
    n == 0x09 || n == 0x0A || n == 0x0B || n == 0x0C || n == 0x0D || n == 0x20
    || n == 0xA0 || n == 0x1680 || (0x2000 <= n <= 0x200A) || n == 0x2028 || n == 0x2029
    || n == 0x202F || n == 0x205F || n == 0x3000 || n == 0xFEFF
  }

  predicate AllSpace(s: string) {
    forall i :: 0 <= i < |s| ==> IsSpace(s[i])
  }

  /** Every character of `s` at a position in `[lo, hi)` is white space. */
  predicate SpaceBetween(s: string, lo: int, hi: int)
    requires 0 <= lo && hi <= |s|
  {
    forall i :: lo <= i < hi ==> IsSpace(s[i])
  }

  /** `trimStart`: drops the leading white space, keeps the rest as a suffix of `s`. */
  function TrimStart(s: string): (r: string)
    ensures |r| <= |s| && r == s[|s| - |r|..]
    ensures SpaceBetween(s, 0, |s| - |r|)
    ensures r == [] || !IsSpace(r[0])
  {
    if |s| > 0 && IsSpace(s[0]) then
      var r := TrimStart(s[1..]);
      assert forall i :: 1 <= i < |s| - |r| ==> s[i] == s[1..][i - 1];
      r
    else s
  }

  /** `trimEnd`: drops the trailing white space, keeps the rest as a prefix of `s`. */
  function TrimEnd(s: string): (r: string)
    ensures |r| <= |s| && r == s[..|r|]
    ensures SpaceBetween(s, |r|, |s|)
    ensures r == [] || !IsSpace(r[|r| - 1])
  {
    if |s| > 0 && IsSpace(s[|s| - 1]) then
      var r := TrimEnd(s[..|s| - 1]);
      assert forall i :: |r| <= i < |s| - 1 ==> s[i] == s[..|s| - 1][i];
      r
    else s
  }

  /**
   * `trim`: what is left once leading and trailing white space are gone.
   * It is empty exactly when `s` is white space only.
   */
  function Trim(s: string): (r: string)
    ensures |r| <= |s|
    ensures r == [] <==> AllSpace(s)
    ensures r != [] ==> !IsSpace(r[0]) && !IsSpace(r[|r| - 1])
  {
    var t := TrimStart(s);
    var r := TrimEnd(t);
    TrimBlank(s, t, r);
    r
  }

  /**
   * What `trim` keeps is the infix of the text between its leading and its trailing white space:
   * only white space is removed, at either end.
   */
  lemma {:induction false} TrimIsInfix(s: string)
    ensures var r := Trim(s);
      exists a :: 0 <= a && a + |r| <= |s| && r == s[a..a + |r|] && SpaceBetween(s, 0, a) && SpaceBetween(s, a + |r|, |s|)
  {
    var t := TrimStart(s);
    var r := TrimEnd(t);
    var a := |s| - |t|;
    assert Trim(s) == r;
    TrimInfix(s, t, r);
  }

  /** A white-space prefix `s[..a]` followed by `t`, whose white-space suffix follows `r`, leaves `r` as an infix of `s`. */
  lemma {:induction false} TrimInfix(s: string, t: string, r: string)
    requires |t| <= |s| && t == s[|s| - |t|..] && SpaceBetween(s, 0, |s| - |t|)
    requires |r| <= |t| && r == t[..|r|] && SpaceBetween(t, |r|, |t|)
    ensures var a := |s| - |t|;
      a + |r| <= |s| && r == s[a..a + |r|] && SpaceBetween(s, 0, a) && SpaceBetween(s, a + |r|, |s|)
  {
    var a := |s| - |t|;
    assert s[a..a + |r|] == t[..|r|];
    assert forall i :: a + |r| <= i < |s| ==> s[i] == t[i - a];
  }

  /** What trimming leaves is empty exactly for white space only, and otherwise starts and ends with other characters. */
  lemma {:induction false} TrimBlank(s: string, t: string, r: string)
    requires |t| <= |s| && t == s[|s| - |t|..] && SpaceBetween(s, 0, |s| - |t|) && (t == [] || !IsSpace(t[0]))
    requires |r| <= |t| && r == t[..|r|] && SpaceBetween(t, |r|, |t|) && (r == [] || !IsSpace(r[|r| - 1]))
    ensures r == [] <==> AllSpace(s)
    ensures r != [] ==> !IsSpace(r[0]) && !IsSpace(r[|r| - 1])
  {
    var a := |s| - |t|;
    if r != [] {
      assert r[0] == s[a];
    }
  }

  /** `toLowerCase` on one character, restricted to the ASCII letters. */
  function LowerChar(c: char): char {
    if 'A' <= c <= 'Z' then (c as int - 'A' as int + 'a' as int) as char else c
  }

  /** `toUpperCase` on one character, restricted to the ASCII letters. */
  function UpperChar(c: char): char {
    if 'a' <= c <= 'z' then (c as int - 'a' as int + 'A' as int) as char else c
  }

  function Lower(s: string): (r: string)
    ensures |r| == |s|
    ensures forall i :: 0 <= i < |s| ==> r[i] == LowerChar(s[i])
  {
    if s == [] then [] else [LowerChar(s[0])] + Lower(s[1..])
  }

  /** Lower-casing twice is lower-casing once: a stored, already lower-cased email keys the same as the typed one. */
  lemma {:induction false} LowerIdempotent(s: string)
    ensures Lower(Lower(s)) == Lower(s)
  {
    var l := Lower(s);
    assert forall i :: 0 <= i < |l| ==> Lower(l)[i] == l[i];
  }

  /** `sub` occurs in `s` starting at position `i`. */
  predicate OccursAt(s: string, sub: string, i: int) {
    0 <= i && i + |sub| <= |s| && s[i..i + |sub|] == sub
  }

  /** `s.includes(sub)`. */
  function Contains(s: string, sub: string): (b: bool)
    ensures b <==> exists i :: OccursAt(s, sub, i)
    decreases |s|
  {
    if sub <= s then
      assert OccursAt(s, sub, 0);
      true
    else if s == [] then
      false
    else
      ContainsStep(s, sub);
      Contains(s[1..], sub)
  }

  /** Past a position where `sub` does not start, its occurrences are those of the tail. */
  lemma {:induction false} ContainsStep(s: string, sub: string)
    requires s != [] && !(sub <= s)
    ensures (exists i :: OccursAt(s, sub, i)) <==> (exists i :: OccursAt(s[1..], sub, i))
  {
    forall i | OccursAt(s[1..], sub, i) ensures OccursAt(s, sub, i + 1) {
      assert s[1..][i..i + |sub|] == s[i + 1..i + 1 + |sub|];
    }
    if |sub| <= |s| {
      assert s[0..|sub|] == s[..|sub|];
    }
    assert !OccursAt(s, sub, 0);
    forall i | OccursAt(s, sub, i) ensures OccursAt(s[1..], sub, i - 1) {
      assert s[1..][i - 1..i - 1 + |sub|] == s[i..i + |sub|];
    }
  }

  /** Every character of `sub` appears in any text `sub` occurs in; a missing character rules an occurrence out. */
  lemma {:induction false} OccurrenceHasChar(s: string, sub: string, k: nat)
    requires k < |sub|
    ensures forall i :: OccursAt(s, sub, i) ==> sub[k] in s
  {
    forall i | OccursAt(s, sub, i) ensures sub[k] in s {
      assert s[i + k] == s[i..i + |sub|][k];
    }
  }

  /** The position of the first `c` in `s`, or `|s|` when there is none: where `split` cuts. */
  function IndexOf(s: string, c: char): (r: nat)
    ensures r <= |s|
    ensures r < |s| ==> s[r] == c
    ensures forall k :: 0 <= k < r ==> s[k] != c
  {
    if s == [] then 0
    else if s[0] == c then 0
    else 1 + IndexOf(s[1..], c)
  }

  /** `s.split(sep)` for a one-character separator: the pieces between separators, empty pieces included. */
  function Split(s: string, sep: char): (parts: seq<string>)
    ensures |parts| >= 1
    ensures forall p :: p in parts ==> sep !in p
    decreases |s|
  {
    var i := IndexOf(s, sep);
    if i == |s| then [s]
    else [s[..i]] + Split(s[i + 1..], sep)
  }

  /** `parts.join(sep)`. */
  function Join(parts: seq<string>, sep: char): string
  {
    if parts == [] then []
    else if |parts| == 1 then parts[0]
    else parts[0] + [sep] + Join(parts[1..], sep)
  }

  /** Joining the pieces of a split with the same separator gives back the string. */
  lemma {:induction false} JoinSplit(s: string, sep: char)
    ensures Join(Split(s, sep), sep) == s
    decreases |s|
  {
    var i := IndexOf(s, sep);
    if i < |s| {
      var rest := Split(s[i + 1..], sep);
      var parts := [s[..i]] + rest;
      assert Split(s, sep) == parts;
      assert parts[1..] == rest;
      JoinSplit(s[i + 1..], sep);
      assert Join(parts, sep) == s[..i] + [sep] + Join(rest, sep);
      assert s == s[..i] + [sep] + s[i + 1..];
    }
  }

  /** The first separator of `p + [sep] + rest`, when `p` has none, is the one after `p`. */
  lemma {:induction false} IndexOfAfter(p: string, sep: char, rest: string)
    requires sep !in p
    ensures IndexOf(p + [sep] + rest, sep) == |p|
  {
    var s := p + [sep] + rest;
    var i := IndexOf(s, sep);
    assert s[|p|] == sep;
    assert forall k :: 0 <= k < |p| ==> s[k] == p[k];
  }

  /** Splitting a join of separator-free pieces gives back the pieces. */
  lemma {:induction false} SplitJoin(parts: seq<string>, sep: char)
    requires |parts| >= 1
    requires forall p :: p in parts ==> sep !in p
    ensures Split(Join(parts, sep), sep) == parts
  {
    var first := parts[0];
    assert sep !in first;
    if |parts| > 1 {
      var tail := parts[1..];
      var rest := Join(tail, sep);
      var s := first + [sep] + rest;
      assert Join(parts, sep) == s;
      IndexOfAfter(first, sep, rest);
      assert s[..|first|] == first;
      assert s[|first| + 1..] == rest;
      assert Split(s, sep) == [first] + Split(rest, sep);
      assert forall p :: p in tail ==> p in parts;
      SplitJoin(tail, sep);
      assert parts == [first] + tail;
    } else {
      assert IndexOf(first, sep) == |first|;
    }
  }

  /** A character missing from a text: checked position by position. */
  predicate Lacks(text: string, c: char) {
    forall i :: 0 <= i < |text| ==> text[i] != c
  }

  /** A lower-case letter missing from a text in both cases is missing from its lower-cased text. */
  lemma {:induction false} LacksLower(s: string, c: char)
    requires 'a' <= c <= 'z' && Lacks(s, c) && Lacks(s, UpperChar(c))
    ensures Lacks(Lower(s), c)
  {
  }

  /** `sub` does not occur in a text that lacks one of its characters. */
  lemma {:induction false} Absent(s: string, sub: string, k: nat)
    requires k < |sub| && Lacks(s, sub[k])
    ensures !Contains(s, sub)
  {
    OccurrenceHasChar(s, sub, k);
  }

  /** A message lacking, in both cases, the `k`-th letter of `word` has no `word` in its lower-cased text. */
  lemma {:induction false} WordAbsent(message: string, word: string, k: nat)
    requires k < |word| && 'a' <= word[k] <= 'z'
    requires Lacks(message, word[k]) && Lacks(message, UpperChar(word[k]))
    ensures !Contains(Lower(message), word)
  {
    LacksLower(message, word[k]);
    Absent(Lower(message), word, k);
  }

  /** `word` is written at position `at` of `message`, in any case. */
  predicate HasWordAt(message: string, word: string, at: nat) {
    at + |word| <= |message| && forall k :: 0 <= k < |word| ==> LowerChar(message[at + k]) == word[k]
  }

  /** A message that has `word`, in any case, at position `at` has `word` in its lower-cased text. */
  lemma {:induction false} WordPresent(message: string, word: string, at: nat)
    requires HasWordAt(message, word, at)
    ensures Contains(Lower(message), word)
  {
    var lowered := Lower(message);
    assert lowered[at..at + |word|] == word;
    assert OccursAt(lowered, word, at);
  }
}
