/**
 * The review tokenizer: lower-case the text, delete every character that is
 * neither a lower-case letter `a`-`z` nor whitespace, and split what is left
 * on runs of whitespace.
 *
 * Characters are Unicode scalar values; lowering is restricted to ASCII
 * `A`-`Z` and whitespace to the ASCII characters Python counts as
 * whitespace.
 */
module Tokenizer {

  /** Tab, line feed, vertical tab, form feed, carriage return, the four information separators 0x1C-0x1F, and space. */
  predicate IsSpace(c: char) {
    c == ' ' || '\t' <= c <= '\r' || '\U{1C}' <= c <= '\U{1F}'
  }

  predicate IsUpper(c: char) { 'A' <= c <= 'Z' }

  /** The characters a token may hold. */
  predicate IsLetter(c: char) { 'a' <= c <= 'z' }

  predicate IsAsciiLetter(c: char) { IsUpper(c) || IsLetter(c) }

  /** ASCII lower-casing: an upper-case letter becomes the lower-case letter at the same place in the alphabet. */
  function ToLower(c: char): (r: char)
    ensures IsUpper(c) ==> IsLetter(r) && r as int - 'a' as int == c as int - 'A' as int
    ensures !IsUpper(c) ==> r == c
  {
    if IsUpper(c) then (c as int + 32) as char else c
  }

  /** Lower-case conversion of a whole text, character by character. */
  function Lower(s: string): (r: string)
    ensures |r| == |s|
    ensures forall i :: 0 <= i < |s| ==> !IsUpper(r[i])
    ensures forall i :: 0 <= i < |s| ==> (IsLetter(r[i]) <==> IsAsciiLetter(s[i]))
    ensures forall i :: 0 <= i < |s| ==> (IsSpace(r[i]) <==> IsSpace(s[i]))
    ensures forall i :: 0 <= i < |s| ==>
      (!IsUpper(s[i]) ==> r[i] == s[i]) &&
      (IsUpper(s[i]) ==> r[i] as int - 'a' as int == s[i] as int - 'A' as int)
  {
    seq(|s|, i requires 0 <= i < |s| => ToLower(s[i]))
  }

  /** What the deletion step keeps: lower-case letters and whitespace. */
  predicate Kept(c: char) { IsLetter(c) || IsSpace(c) }

  /**
   * Deletes every character that is neither a lower-case letter nor
   * whitespace; nothing is put in its place.
   */
  function StripNonLetters(s: string): (r: string)
    ensures |r| <= |s|
    ensures forall i :: 0 <= i < |r| ==> Kept(r[i])
  {
    if s == [] then []
    else (if Kept(s[0]) then [s[0]] else []) + StripNonLetters(s[1..])
  }

  /** The deletion step works character by character: it distributes over concatenation. */
  lemma {:induction false} StripAppend(a: string, b: string)
    ensures StripNonLetters(a + b) == StripNonLetters(a) + StripNonLetters(b)
  {
    if a == [] {
      assert a + b == b;
    } else {
      assert (a + b)[0] == a[0] && (a + b)[1..] == a[1..] + b;
      StripAppend(a[1..], b);
    }
  }

  /** A single character is kept exactly when it is a letter `a`-`z` or whitespace, and deleted otherwise. */
  lemma StripOne(c: char)
    ensures StripNonLetters([c]) == if Kept(c) then [c] else []
  {
    assert [c][1..] == [];
  }

  /** The length of the longest prefix of `s` without whitespace. */
  function WordLength(s: string): (n: nat)
    ensures n <= |s|
    ensures forall i :: 0 <= i < n ==> !IsSpace(s[i])
    ensures n < |s| ==> IsSpace(s[n])
  {
    if s == [] || IsSpace(s[0]) then 0 else 1 + WordLength(s[1..])
  }

  /** A non-empty run of non-whitespace characters. */
  predicate IsWord(w: string) {
    |w| > 0 && forall i :: 0 <= i < |w| ==> !IsSpace(w[i])
  }

  /** A non-empty run of lower-case letters `a`-`z`. */
  predicate IsToken(w: string) {
    |w| > 0 && forall i :: 0 <= i < |w| ==> IsLetter(w[i])
  }

  /**
   * Splitting on runs of whitespace: the maximal whitespace-free pieces of
   * `s`, in order, with no empty piece.
   */
  function Split(s: string): (r: seq<string>)
    ensures forall k :: 0 <= k < |r| ==> IsWord(r[k])
    decreases |s|
  {
    if s == [] then []
    else if IsSpace(s[0]) then Split(s[1..])
    else
      var n := WordLength(s);
      assert IsWord(s[..n]);
      [s[..n]] + Split(s[n..])
  }

  /** Every piece Split takes out of a text of letters and whitespace is a token. */
  lemma {:induction false} SplitOfKept(s: string)
    requires forall i :: 0 <= i < |s| ==> Kept(s[i])
    ensures forall k :: 0 <= k < |Split(s)| ==> IsToken(Split(s)[k])
    decreases |s|
  {
    if s != [] {
      if IsSpace(s[0]) {
        SplitOfKept(s[1..]);
      } else {
        var n := WordLength(s);
        SplitOfKept(s[n..]);
      }
    }
  }

  /** The tokenizer: every token is a non-empty run of letters `a`-`z`. */
  function Tokenize(text: string): (tokens: seq<string>)
    ensures forall k :: 0 <= k < |tokens| ==> IsToken(tokens[k])
  {
    var cleaned := StripNonLetters(Lower(text));
    SplitOfKept(cleaned);
    Split(cleaned)
  }

  /** The words of `ws` written one after another. */
  function Concat(ws: seq<string>): string {
    if ws == [] then [] else ws[0] + Concat(ws[1..])
  }

  /** The words of `ws` separated by single spaces. */
  function Join(ws: seq<string>): string {
    if ws == [] then []
    else if |ws| == 1 then ws[0]
    else ws[0] + " " + Join(ws[1..])
  }

  /** `s` with its whitespace removed. */
  function NonSpace(s: string): string {
    if s == [] then []
    else (if IsSpace(s[0]) then [] else [s[0]]) + NonSpace(s[1..])
  }

  /** The ASCII letters of `s`, lower-cased, in order: what a token may be made from. */
  function Letters(s: string): string {
    if s == [] then []
    else (if IsAsciiLetter(s[0]) then [ToLower(s[0])] else []) + Letters(s[1..])
  }

  lemma {:induction false} NonSpaceAppend(a: string, b: string)
    ensures NonSpace(a + b) == NonSpace(a) + NonSpace(b)
  {
    if a != [] {
      assert (a + b)[0] == a[0] && (a + b)[1..] == a[1..] + b;
      NonSpaceAppend(a[1..], b);
      if !IsSpace(a[0]) {
        calc {
          NonSpace(a + b);
          [a[0]] + NonSpace(a[1..] + b);
          [a[0]] + (NonSpace(a[1..]) + NonSpace(b));
          ([a[0]] + NonSpace(a[1..])) + NonSpace(b);
        }
      }
    } else {
      assert a + b == b;
    }
  }

  /** Removing whitespace from a text that has none changes nothing. */
  lemma {:induction false} NonSpaceOfWord(w: string)
    requires forall i :: 0 <= i < |w| ==> !IsSpace(w[i])
    ensures NonSpace(w) == w
  {
    if w != [] {
      NonSpaceOfWord(w[1..]);
    }
  }

  /**
   * The pieces Split returns, written one after another, are exactly the
   * non-whitespace characters of `s`: nothing is lost, nothing added,
   * nothing reordered.
   */
  lemma {:induction false} ConcatSplit(s: string)
    ensures Concat(Split(s)) == NonSpace(s)
    decreases |s|
  {
    if s != [] {
      if IsSpace(s[0]) {
        ConcatSplit(s[1..]);
      } else {
        var n := WordLength(s);
        assert s == s[..n] + s[n..];
        NonSpaceAppend(s[..n], s[n..]);
        NonSpaceOfWord(s[..n]);
        ConcatSplit(s[n..]);
      }
    }
  }

  /** Lower-casing and deleting, then removing whitespace, leaves the lowered ASCII letters. */
  lemma {:induction false} NonSpaceStripLower(s: string)
    ensures NonSpace(StripNonLetters(Lower(s))) == Letters(s)
  {
    if s != [] {
      assert Lower(s) == [ToLower(s[0])] + Lower(s[1..]);
      var c := ToLower(s[0]);
      var head := if Kept(c) then [c] else [];
      assert StripNonLetters(Lower(s)) == head + StripNonLetters(Lower(s[1..]));
      NonSpaceAppend(head, StripNonLetters(Lower(s[1..])));
      NonSpaceStripLower(s[1..]);
    }
  }

  /**
   * The tokens of a text, written one after another, are its ASCII letters,
   * lower-cased and in order: every letter ends up in exactly one token and
   * every other character is gone.
   */
  lemma TokensSpellLetters(text: string)
    ensures Concat(Tokenize(text)) == Letters(text)
  {
    ConcatSplit(StripNonLetters(Lower(text)));
    NonSpaceStripLower(text);
  }

  lemma {:induction false} LettersEmptyIff(s: string)
    ensures Letters(s) == [] <==> forall i :: 0 <= i < |s| ==> !IsAsciiLetter(s[i])
  {
    if s != [] {
      LettersEmptyIff(s[1..]);
      assert forall i :: 1 <= i < |s| ==> s[i] == s[1..][i - 1];
    }
  }

  /**
   * A text has no tokens exactly when it has no ASCII letter; in particular
   * the empty text and a whitespace-only text have none.
   */
  lemma NoTokensIffNoLetters(text: string)
    ensures Tokenize(text) == [] <==> forall i :: 0 <= i < |text| ==> !IsAsciiLetter(text[i])
  {
    var tokens := Tokenize(text);
    TokensSpellLetters(text);
    LettersEmptyIff(text);
    if tokens != [] {
      assert Concat(tokens) == tokens[0] + Concat(tokens[1..]);
      assert |Concat(tokens)| > 0;
    }
  }

  lemma {:induction false} SplitWord(w: string)
    requires IsWord(w)
    ensures Split(w) == [w]
  {
    var n := WordLength(w);
    assert n == |w|;
    assert w[..n] == w && w[n..] == [];
    assert Split(w[n..]) == [];
  }

  /**
   * Deleted characters are not replaced by a separator: a text without
   * whitespace that holds an ASCII letter is one token, its lowered
   * letters.
   */
  lemma TokenizeWithoutSpaces(text: string)
    requires forall i :: 0 <= i < |text| ==> !IsSpace(text[i])
    requires Letters(text) != []
    ensures Tokenize(text) == [Letters(text)]
  {
    var cleaned := StripNonLetters(Lower(text));
    assert forall i :: 0 <= i < |cleaned| ==> !IsSpace(cleaned[i]) by {
      StripKeepsNoSpace(Lower(text));
    }
    NonSpaceOfWord(cleaned);
    NonSpaceStripLower(text);
    assert cleaned == Letters(text);
    SplitWord(cleaned);
  }

  lemma {:induction false} StripKeepsNoSpace(s: string)
    requires forall i :: 0 <= i < |s| ==> !IsSpace(s[i])
    ensures forall i :: 0 <= i < |StripNonLetters(s)| ==> !IsSpace(StripNonLetters(s)[i])
  {
    if s != [] {
      StripKeepsNoSpace(s[1..]);
    }
  }

  /** "Don't!" is one token, "dont": the apostrophe is deleted, not a separator. */
  lemma DontIsOneToken()
    ensures Tokenize("Don't!") == ["dont"]
  {
    var text := "Don't!";
    assert Letters(text) == "dont";
    TokenizeWithoutSpaces(text);
  }

  lemma {:induction false} StripKeepsKept(s: string)
    requires forall i :: 0 <= i < |s| ==> Kept(s[i])
    ensures StripNonLetters(s) == s
  {
    if s != [] {
      StripKeepsKept(s[1..]);
    }
  }

  lemma {:induction false} JoinOfTokens(ws: seq<string>)
    requires forall k :: 0 <= k < |ws| ==> IsToken(ws[k])
    ensures forall i :: 0 <= i < |Join(ws)| ==> IsLetter(Join(ws)[i]) || Join(ws)[i] == ' '
  {
    if |ws| > 1 {
      JoinOfTokens(ws[1..]);
    }
  }

  lemma SplitLeadingSpace(s: string)
    ensures Split(" " + s) == Split(s)
  {
    assert (" " + s)[1..] == s;
  }

  /** Splitting the space-joined words gives the words back. */
  lemma {:induction false} SplitJoin(ws: seq<string>)
    requires forall k :: 0 <= k < |ws| ==> IsWord(ws[k])
    ensures Split(Join(ws)) == ws
  {
    if ws != [] {
      var w := ws[0];
      var rest := if |ws| == 1 then "" else " " + Join(ws[1..]);
      var j := Join(ws);
      assert j == w + rest;
      var n := WordLength(j);
      assert forall i :: 0 <= i < |w| ==> j[i] == w[i];
      assert |w| < |j| ==> j[|w|] == ' ';
      assert n == |w|;
      assert j[..n] == w && j[n..] == rest;
      if |ws| > 1 {
        SplitLeadingSpace(Join(ws[1..]));
        SplitJoin(ws[1..]);
      }
    }
  }

  /**
   * Tokenizing the space-joined tokens of a text gives the same tokens:
   * the tokenizer is idempotent.
   */
  lemma TokenizeIdempotent(text: string)
    ensures Tokenize(Join(Tokenize(text))) == Tokenize(text)
  {
    var ws := Tokenize(text);
    var j := Join(ws);
    JoinOfTokens(ws);
    assert Lower(j) == j;
    StripKeepsKept(j);
    SplitJoin(ws);
  }

  /**
   * A whitespace character separates: the pieces of `a`, whitespace, `b`
   * are the pieces of `a` followed by the pieces of `b`, so no piece
   * spans a whitespace character.
   */
  lemma {:induction false} SplitAtSpace(a: string, c: char, b: string)
    requires IsSpace(c)
    ensures Split(a + [c] + b) == Split(a) + Split(b)
    decreases |a|
  {
    var s := a + [c] + b;
    if a == [] {
      assert s == [c] + b && s[1..] == b;
    } else if IsSpace(a[0]) {
      assert s[0] == a[0] && s[1..] == a[1..] + [c] + b;
      SplitAtSpace(a[1..], c, b);
    } else {
      var m := WordLength(a);
      var n := WordLength(s);
      assert forall i :: 0 <= i < |a| ==> s[i] == a[i];
      assert s[|a|] == c;
      assert n == m;
      assert s[..n] == a[..m];
      if m < |a| {
        assert s[n..] == a[m..] + [c] + b;
        SplitAtSpace(a[m..], c, b);
      } else {
        assert a[m..] == [] && s[n..] == [c] + b;
        assert ([c] + b)[1..] == b;
      }
    }
  }

  /**
   * The tokens of `a`, whitespace, `b` are the tokens of `a` followed by
   * the tokens of `b`: whitespace is where one token ends and the next
   * begins. With TokenizeWithoutSpaces this fixes every token boundary.
   */
  lemma TokenizeAtSpace(a: string, c: char, b: string)
    requires IsSpace(c)
    ensures Tokenize(a + [c] + b) == Tokenize(a) + Tokenize(b)
  {
    assert Lower(a + [c] + b) == Lower(a) + [c] + Lower(b);
    StripAppend(Lower(a) + [c], Lower(b));
    StripAppend(Lower(a), [c]);
    StripOne(c);
    SplitAtSpace(StripNonLetters(Lower(a)), c, StripNonLetters(Lower(b)));
  }
}
