/** Input streams of characters: white space and words, in the "C" locale. */
module Streams {
  predicate IsSpace(c: char) {
    c == ' ' || '\t' <= c <= '\r'
  }

  function SkipSpaces(s: string): (t: string)
    ensures |t| <= |s|
    ensures t != [] ==> !IsSpace(t[0])
  {
    if s != [] && IsSpace(s[0]) then SkipSpaces(s[1..]) else s
  }

  predicate IsWord(s: string) {
    s != [] && forall i | 0 <= i < |s| :: !IsSpace(s[i])
  }

  /** How many characters come before the first white space. */
  function WordLength(s: string): (n: nat)
    ensures n <= |s| && (n < |s| ==> IsSpace(s[n])) && forall i | 0 <= i < n :: !IsSpace(s[i])
  {
    if s == [] || IsSpace(s[0]) then 0 else WordLength(s[1..]) + 1
  }

  /** What `stream >> word` yields until the stream ends. */
  function Words(s: string): (words: seq<string>)
    ensures forall w | w in words :: IsWord(w)
    decreases |s|
  {
    var t := SkipSpaces(s);
    if t == [] then [] else
      var n := WordLength(t);
      [t[..n]] + Words(t[n..])
  }

  /** One word comes off the stream, and the white space behind it. */
  lemma FirstWord(s: string, n: nat)
    requires s != [] && !IsSpace(s[0]) && n == WordLength(s)
    ensures n > 0 && Words(s) == [s[..n]] + Words(SkipSpaces(s[n..]))
  {
    SkipTwice(s[n..]);
  }

  lemma SkipTwice(s: string)
    ensures Words(SkipSpaces(s)) == Words(s)
  {
    assert SkipSpaces(SkipSpaces(s)) == SkipSpaces(s);
  }

  /** The white space of the "C" locale. */
  lemma SpacesAre(c: char)
    ensures IsSpace(c) <==> c in {' ', '\t', '\n', '\U{b}', '\U{c}', '\r'}
  {}

  predicate IsGap(s: string) {
    forall i | 0 <= i < |s| :: IsSpace(s[i])
  }

  /** White space in front does not matter. */
  lemma {:induction false} SkipGap(gap: string, s: string)
    requires IsGap(gap)
    ensures Words(gap + s) == Words(s)
  {
    if gap == [] {
      assert gap + s == s;
    } else {
      SkipGap(gap[1..], s);
      assert (gap + s)[1..] == gap[1..] + s;
    }
  }

  lemma WordEnds(w: string, rest: string)
    requires IsWord(w) && (rest == [] || IsSpace(rest[0]))
    ensures SkipSpaces(w + rest) == w + rest && WordLength(w + rest) == |w|
  {
    var s := w + rest;
    assert s[0] == w[0];
    assert (rest != [] ==> s[|w|] == rest[0]) && forall i | 0 <= i < |w| :: s[i] == w[i];
  }

  /** A word ends at white space, however much there is, or at the end of the stream; what follows is split by
      itself.  With SkipGap this says what the words of any stream are. */
  lemma WordThenGap(w: string, gap: string, rest: string)
    requires IsWord(w) && IsGap(gap) && (gap == [] ==> rest == [])
    ensures Words(w + gap + rest) == [w] + Words(rest)
  {
    var s, t := w + gap + rest, gap + rest;
    assert s == w + t;
    assert t != [] ==> t[0] == gap[0];
    WordEnds(w, t);
    assert s[..|w|] == w && s[|w|..] == t;
    SkipGap(gap, rest);
  }

  /** Words, each with one space behind it. */
  function Spaced(words: seq<string>): string {
    if words == [] then [] else words[0] + " " + Spaced(words[1..])
  }

  /** Splitting undoes joining: no word is lost, cut or merged. */
  lemma {:induction false} WordsOfSpaced(words: seq<string>)
    requires forall w | w in words :: IsWord(w)
    ensures Words(Spaced(words)) == words
  {
    if words != [] {
      WordsOfSpaced(words[1..]);
      WordThenGap(words[0], " ", Spaced(words[1..]));
    }
  }
}
