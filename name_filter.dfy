/**
 * The player-name filter: a list of forbidden words read from a text file,
 * and the check that a name contains none of them.
 */
module NameFilter {
  import opened Wrappers
  import opened Text

  /** How a line of the word file is stored: trimmed, then lower-cased. */
  function Normalize(line: string): (w: string)
    ensures !IsBlank(line) ==> IsStoredWord(w)
  {
    TrimProperties(line);
    ToLowerIsLower(Trim(line));
    ToLowerKeepsTrimmed(Trim(line));
    ToLower(Trim(line))
  }

  /** A stored word is never empty, has no white space at either end, and has no upper-case letter. */
  predicate IsStoredWord(w: string) {
    w != [] && IsTrimmed(w) && IsLower(w)
  }

  /**
   * The constructor's `Where(line => !IsNullOrWhiteSpace(line)).Select(line =>
   * line.Trim().ToLowerInvariant())` over the file's lines: the blank lines are
   * dropped and the others normalised, in file order.
   */
  function NormalizedLines(lines: seq<string>): (words: seq<string>)
    ensures |words| <= |lines|
    ensures forall w :: w in words ==> IsStoredWord(w)
  {
    if lines == [] then []
    else
      var rest := NormalizedLines(lines[1..]);
      if IsBlank(lines[0]) then rest
      else
        [Normalize(lines[0])] + rest
  }

  /** Every stored word is the normalised form of a non-blank line of the file. */
  lemma {:induction false} NormalizedLinesSound(lines: seq<string>)
    ensures forall w :: w in NormalizedLines(lines) ==> exists line :: line in lines && !IsBlank(line) && w == Normalize(line)
  {
    if lines != [] {
      var rest := NormalizedLines(lines[1..]);
      NormalizedLinesSound(lines[1..]);
      forall w | w in NormalizedLines(lines)
        ensures exists line :: line in lines && !IsBlank(line) && w == Normalize(line)
      {
        if w in rest {
          var line :| line in lines[1..] && !IsBlank(line) && w == Normalize(line);
          assert line in lines;
        } else {
          assert lines[0] in lines;
        }
      }
    }
  }

  /** Every non-blank line of the file is stored, normalised. */
  lemma {:induction false} NormalizedLinesComplete(lines: seq<string>)
    ensures forall line :: line in lines && !IsBlank(line) ==> Normalize(line) in NormalizedLines(lines)
  {
    if lines != [] {
      NormalizedLinesComplete(lines[1..]);
      forall line | line in lines && !IsBlank(line)
        ensures Normalize(line) in NormalizedLines(lines)
      {
        if line != lines[0] {
          assert line in lines[1..];
        }
      }
    }
  }

  /** The word list the constructor builds: empty when the file does not exist. */
  function LoadForbiddenWords(file: Option<seq<string>>): (words: seq<string>)
    ensures file.None? ==> words == []
    ensures forall w :: w in words ==> IsStoredWord(w)
  {
    if file.None? then [] else NormalizedLines(file.value)
  }

  /**
   * `Regex.IsMatch(text, Regex.Escape(word), RegexOptions.IgnoreCase)`: the
   * escaped word is matched literally, anywhere in the text (the pattern has
   * no anchors or word boundaries), letters compared without case.
   */
  function MatchesLiteral(text: string, word: string): (matches: bool)
    ensures matches ==> exists i :: OccursAt(ToLower(text), ToLower(word), i)
    ensures (exists i :: OccursAt(ToLower(text), ToLower(word), i)) ==> matches
  {
    ContainsAt(ToLower(text), ToLower(word));
    Contains(ToLower(text), ToLower(word))
  }

  /** `IsNameAllowed`: the words are tried in order against the lower-cased name; the first match refuses the name. */
  function IsNameAllowed(words: seq<string>, name: string): (allowed: bool)
    ensures allowed <==> forall w :: w in words ==> !MatchesLiteral(ToLower(name), w)
  {
    if words == [] then true
    else
      assert words[0] in words;
      assert forall w :: w in words <==> w == words[0] || w in words[1..];
      if MatchesLiteral(ToLower(name), words[0]) then false
      else IsNameAllowed(words[1..], name)
  }

  /**
   * With stored (lower-case) words, a name is refused exactly when one of the
   * words occurs in the lower-cased name as a contiguous substring.
   */
  lemma RefusedIffSubstring(words: seq<string>, name: string)
    requires forall w :: w in words ==> IsStoredWord(w)
    ensures !IsNameAllowed(words, name) <==> exists w, i :: w in words && OccursAt(ToLower(name), w, i)
  {
    ToLowerIdempotent(name);
    forall w | w in words
      ensures MatchesLiteral(ToLower(name), w) <==> exists i :: OccursAt(ToLower(name), w, i)
    {
      LowerIsFixed(w);
      ContainsAt(ToLower(name), w);
    }
  }

  /** Without a word file every name is allowed. */
  lemma MissingFileAllowsAll(name: string)
    ensures IsNameAllowed(LoadForbiddenWords(None), name)
  {
  }

  /** The check ignores case: a name and its lower-cased form get the same answer. */
  lemma {:induction false} LowerCaseSameAnswer(words: seq<string>, name: string)
    ensures IsNameAllowed(words, ToLower(name)) == IsNameAllowed(words, name)
  {
    ToLowerIdempotent(name);
  }

  /**
   * More words can only refuse more names: a name allowed by a longer list
   * is allowed by each part of it, and allowed by both parts it is allowed
   * by the whole.
   */
  lemma MoreWordsRefuseMore(words: seq<string>, more: seq<string>, name: string)
    ensures IsNameAllowed(words + more, name) <==> IsNameAllowed(words, name) && IsNameAllowed(more, name)
  {
    assert forall w :: w in words + more <==> w in words || w in more;
  }
}
