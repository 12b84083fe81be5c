/** The avatar initials of the home screen (`getInitials`). */
module HomeScreen {
  import opened Wrappers
  import opened Strings

  /** `word.charAt(0).toUpperCase()`: the first character upper-cased, or nothing for an empty word. */
  function Head(word: string): string {
    if word == [] then [] else [UpperChar(word[0])]
  }

  /** `words.map(w => w.charAt(0).toUpperCase()).join('')`. */
  function Heads(words: seq<string>): string {
    if words == [] then [] else Head(words[0]) + Heads(words[1..])
  }

  /** `s.substring(0, 2)`. */
  function FirstTwo(s: string): (r: string)
    ensures r <= s
    ensures |r| == if |s| < 2 then |s| else 2
  {
    if |s| <= 2 then s else s[..2]
  }

  /**
   * `getInitials`: the first two of the upper-cased word initials of `split(' ')`. That is at most
   * two characters: the first two word starts of the name, that is, the upper-cased first
   * characters of its space-separated words, in order.
   */
  function GetInitials(name: string): (r: string)
    ensures |r| <= 2
    ensures r == FirstTwo(WordStarts(name))
  {
    HeadsOfSplit(name);
    FirstTwo(Heads(Split(name, ' ')))
  }

  /**
   * The word initials read straight off the characters: every character other than a space that
   * starts the text or follows a space, upper-cased, in order. `atStart` says whether the
   * character before `s` was a space (or there was none).
   */
  function StartsFrom(s: string, atStart: bool): string {
    if s == [] then []
    else (if atStart && s[0] != ' ' then [UpperChar(s[0])] else []) + StartsFrom(s[1..], s[0] == ' ')
  }

  function WordStarts(s: string): string {
    StartsFrom(s, true)
  }

  /** Scanning a run of non-space characters yields at most its first, then resumes after the space that ends it. */
  lemma {:induction false} SkipWord(s: string, atStart: bool)
    ensures var i := IndexOf(s, ' ');
      StartsFrom(s, atStart) == (if atStart && i > 0 then [UpperChar(s[0])] else [])
                                + (if i < |s| then StartsFrom(s[i + 1..], true) else [])
  {
    if s != [] && s[0] != ' ' {
      SkipWord(s[1..], false);
      var i := IndexOf(s, ' ');
      if i < |s| {
        assert s[1..][i - 1 + 1..] == s[i + 1..];
      }
    }
  }

  /** The initials of the pieces of `split(' ')` are exactly the word starts of the text. */
  lemma {:induction false} HeadsOfSplit(s: string)
    ensures Heads(Split(s, ' ')) == WordStarts(s)
    decreases |s|
  {
    var i := IndexOf(s, ' ');
    SkipWord(s, true);
    if i < |s| {
      var parts := Split(s, ' ');
      assert parts == [s[..i]] + Split(s[i + 1..], ' ');
      assert parts[1..] == Split(s[i + 1..], ' ');
      HeadsOfSplit(s[i + 1..]);
    }
  }

  /** The initials of a piece list do not change when empty pieces (from leading or repeated spaces) are dropped. */
  lemma {:induction false} HeadsSkipEmpty(before: seq<string>, after: seq<string>)
    ensures Heads(before + [""] + after) == Heads(before + after)
  {
    if before == [] {
      assert before + [""] + after == [""] + after && before + after == after;
      assert ([""] + after)[1..] == after;
    } else {
      assert (before + [""] + after)[1..] == before[1..] + [""] + after;
      assert (before + after)[1..] == before[1..] + after;
      HeadsSkipEmpty(before[1..], after);
    }
  }

  /** The avatar text: the initials of the account's name, or of "U" when there is no name. */
  function Avatar(name: Option<string>): (r: string)
    ensures name.None? || name.value == "" ==> r == "U"
    ensures name.Some? && name.value != "" ==> r == FirstTwo(WordStarts(name.value))
    ensures |r| <= 2
  {
    var shown := if name.None? || name.value == "" then "U" else name.value;
    GetInitials(shown)
  }
}
