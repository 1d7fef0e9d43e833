/**
 * The string operations the chat backend relies on: Python's `str.lower()`
 * (as far as it can matter for the sport keys), `str.split()` with no
 * argument, `str.strip()`, and the word-chunk stream that the streaming
 * responder emits. Strings are sequences of Unicode scalar values.
 */
module Text {

  /** Python's `str.isspace()` for one character: the Unicode characters
      of bidirectional type WS, B or S, or of category Zs. These are the
      separators `split()` and `strip()` use when called without arguments. */
  predicate IsSpace(c: char) {
    || ('\t' <= c <= '\r')
    || ('\U{1C}' <= c <= ' ')
    || c == '\U{85}'
    || c == '\U{A0}'
    || c == '\U{1680}'
    || ('\U{2000}' <= c <= '\U{200A}')
    || c == '\U{2028}'
    || c == '\U{2029}'
    || c == '\U{202F}'
    || c == '\U{205F}'
    || c == '\U{3000}'
  }

  /** A word as `split()` returns it: non-empty and free of whitespace. */
  predicate IsWord(w: string) {
    |w| > 0 && forall i :: 0 <= i < |w| ==> !IsSpace(w[i])
  }

  predicate AllWords(ws: seq<string>) {
    forall k :: 0 <= k < |ws| ==> IsWord(ws[k])
  }

  /** A text in which every whitespace character is a single ASCII space
      standing between two non-whitespace characters: no leading or
      trailing whitespace, no runs, no tabs or newlines. */
  ghost predicate Normalized(s: string) {
    && (forall i :: 0 <= i < |s| && IsSpace(s[i]) ==> s[i] == ' ' && 0 < i < |s| - 1)
    && (forall i, j :: 0 <= i < j < |s| && j == i + 1 ==> !IsSpace(s[i]) || !IsSpace(s[j]))
  }

  // ---------------------------------------------------------------------
  // Lower-casing

  predicate IsUpperAscii(c: char) {
    'A' <= c <= 'Z'
  }

  function LowerChar(c: char): char {
    if IsUpperAscii(c) then (c as int + 32) as char else c
  }

  /** `str.lower()` restricted to ASCII letters; every other character is
      kept as it is. */
  function Lower(s: string): string {
    seq(|s|, i requires 0 <= i < |s| => LowerChar(s[i]))
  }

  /** Lower-casing keeps the length, leaves no upper-case ASCII letter, and
      changes a character only by moving an upper-case ASCII letter to its
      lower-case partner, 32 code points further. */
  lemma LowerSpec(s: string)
    ensures |Lower(s)| == |s|
    ensures forall i :: 0 <= i < |s| ==> !IsUpperAscii(Lower(s)[i])
    ensures forall i :: 0 <= i < |s| ==>
      Lower(s)[i] == s[i] || (IsUpperAscii(s[i]) && Lower(s)[i] as int == s[i] as int + 32)
  {
  }

  /** A text without upper-case ASCII letters is its own lower-case form. */
  lemma {:induction false} LowerKeepsLowercase(s: string)
    requires forall i :: 0 <= i < |s| ==> !IsUpperAscii(s[i])
    ensures Lower(s) == s
  {
    var r := Lower(s);
    forall i | 0 <= i < |s| ensures r[i] == s[i] {
      assert r[i] == LowerChar(s[i]);
    }
  }

  /** Lower-casing twice is lower-casing once. */
  lemma LowerIdempotent(s: string)
    ensures Lower(Lower(s)) == Lower(s)
  {
    LowerSpec(s);
    LowerKeepsLowercase(Lower(s));
  }

  // ---------------------------------------------------------------------
  // split()

  /** Length of the run of non-whitespace characters that starts `s`. */
  function WordLength(s: string): (n: nat)
    ensures n <= |s|
    ensures forall i :: 0 <= i < n ==> !IsSpace(s[i])
    ensures n < |s| ==> IsSpace(s[n])
  {
    if s == [] || IsSpace(s[0]) then 0 else 1 + WordLength(s[1..])
  }

  /** `str.split()` without a separator: the maximal runs of
      non-whitespace characters, in order; whitespace of any kind and
      length separates them and never appears in a word. */
  function Split(s: string): (ws: seq<string>)
    ensures AllWords(ws)
    decreases |s|
  {
    if s == [] then []
    else if IsSpace(s[0]) then Split(s[1..])
    else
      var n := WordLength(s);
      [s[..n]] + Split(s[n..])
  }

  /** The words joined by single spaces, as `" ".join(ws)`. */
  function JoinWords(ws: seq<string>): string {
    if |ws| == 0 then ""
    else if |ws| == 1 then ws[0]
    else ws[0] + " " + JoinWords(ws[1..])
  }

  // ---------------------------------------------------------------------
  // strip()

  /** Drops the trailing whitespace of `s`. */
  function StripEnd(s: string): (r: string)
    ensures |r| <= |s| && r == s[..|r|]
    ensures r == [] || !IsSpace(r[|r| - 1])
  {
    if s != [] && IsSpace(s[|s| - 1]) then StripEnd(s[..|s| - 1]) else s
  }

  /** Drops the leading whitespace of `s`. */
  function StripStart(s: string): (r: string)
    ensures |r| <= |s| && r == s[|s| - |r|..]
    ensures r == [] || !IsSpace(r[0])
  {
    if s != [] && IsSpace(s[0]) then StripStart(s[1..]) else s
  }

  /** `str.strip()` without arguments. */
  function Strip(s: string): string {
    StripStart(StripEnd(s))
  }

  /** `strip()` returns the slice of `s` between its leading and its
      trailing whitespace: everything cut off is whitespace, and what is
      kept neither starts nor ends with whitespace. */
  lemma StripSpec(s: string)
    ensures var r, e := Strip(s), |StripEnd(s)|;
      && |r| <= e <= |s| && r == s[e - |r|..e]
      && (r == [] || (!IsSpace(r[0]) && !IsSpace(r[|r| - 1])))
      && (forall i :: 0 <= i < e - |r| ==> IsSpace(s[i]))
      && (forall i :: e <= i < |s| ==> IsSpace(s[i]))
  {
    var t := StripEnd(s);
    var r := StripStart(t);
    StripEndRemovesOnlySpace(s);
    StripStartRemovesOnlySpace(t);
    assert r == t[|t| - |r|..];
    forall i | 0 <= i < |t| ensures t[i] == s[i] {
    }
    if r != [] {
      assert r[|r| - 1] == t[|t| - 1];
    }
  }

  /** What `rstrip()` cuts off is whitespace, and only that. */
  lemma {:induction false} StripEndRemovesOnlySpace(s: string)
    ensures forall i :: |StripEnd(s)| <= i < |s| ==> IsSpace(s[i])
    decreases |s|
  {
    if s != [] && IsSpace(s[|s| - 1]) {
      var front := s[..|s| - 1];
      StripEndRemovesOnlySpace(front);
      assert StripEnd(s) == StripEnd(front);
      forall i | |StripEnd(s)| <= i < |s| ensures IsSpace(s[i]) {
        if i < |front| {
          assert s[i] == front[i];
        }
      }
    }
  }

  /** What `lstrip()` cuts off is whitespace, and only that. */
  lemma {:induction false} StripStartRemovesOnlySpace(s: string)
    ensures forall i :: 0 <= i < |s| - |StripStart(s)| ==> IsSpace(s[i])
    decreases |s|
  {
    if s != [] && IsSpace(s[0]) {
      var rest := s[1..];
      StripStartRemovesOnlySpace(rest);
      var n := |s| - |StripStart(s)|;
      assert n == |rest| - |StripStart(rest)| + 1;
      forall i | 0 <= i < n ensures IsSpace(s[i]) {
        if 0 < i {
          assert s[i] == rest[i - 1];
        }
      }
    }
  }

  // ---------------------------------------------------------------------
  // The word-chunk stream

  /** One chunk per word, each the word followed by one space. */
  function Chunks(ws: seq<string>): (cs: seq<string>) {
    seq(|ws|, k requires 0 <= k < |ws| => ws[k] + " ")
  }

  /** The chunks glued together, as repeated `+=` builds them. */
  function Concat(cs: seq<string>): string {
    if cs == [] then "" else cs[0] + Concat(cs[1..])
  }

  /** Appending one chunk extends the concatenation by that chunk. */
  lemma {:induction false} ConcatSnoc(cs: seq<string>, c: string)
    ensures Concat(cs + [c]) == Concat(cs) + c
  {
    if cs == [] {
      assert [] + [c] == [c];
    } else {
      assert (cs + [c])[1..] == cs[1..] + [c];
      ConcatSnoc(cs[1..], c);
    }
  }

  /** The streamed chunks of non-empty `ws` glue to the words joined by
      single spaces, plus one trailing space. */
  lemma {:induction false} ConcatChunks(ws: seq<string>)
    requires |ws| > 0
    ensures Concat(Chunks(ws)) == JoinWords(ws) + " "
  {
    assert Chunks(ws)[0] == ws[0] + " ";
    assert Chunks(ws)[1..] == Chunks(ws[1..]);
    if |ws| > 1 {
      ConcatChunks(ws[1..]);
    }
  }

  /** Words joined by single spaces always form a normalized text. */
  lemma {:induction false} JoinNormalized(ws: seq<string>)
    requires AllWords(ws)
    ensures Normalized(JoinWords(ws))
    ensures |ws| > 0 ==> |JoinWords(ws)| > 0
  {
    if |ws| > 1 {
      var w := ws[0];
      assert IsWord(w);
      var rest := JoinWords(ws[1..]);
      assert AllWords(ws[1..]) by {
        forall k | 0 <= k < |ws[1..]| ensures IsWord(ws[1..][k]) {
          assert ws[1..][k] == ws[k + 1];
        }
      }
      JoinNormalized(ws[1..]);
      var s := w + " " + rest;
      assert s == JoinWords(ws);
      forall i | 0 <= i < |s| ensures IsSpace(s[i]) ==> s[i] == ' ' && 0 < i < |s| - 1 {
        if i < |w| {
          assert s[i] == w[i];
        } else if i > |w| {
          assert s[i] == rest[i - |w| - 1];
        }
      }
      forall i, j | 0 <= i < j < |s| && j == i + 1 ensures !IsSpace(s[i]) || !IsSpace(s[j]) {
        if i < |w| {
          assert s[i] == w[i];
        } else if i == |w| {
          assert s[j] == rest[0];
        } else {
          assert s[i] == rest[i - |w| - 1] && s[j] == rest[j - |w| - 1];
        }
      }
    } else if |ws| == 1 {
      assert IsWord(ws[0]);
    }
  }

  /** `strip()` of a normalized text followed by one space gives the text back. */
  lemma StripSpaceAfterNormalized(s: string)
    requires Normalized(s)
    ensures Strip(s + " ") == s
  {
    var t := s + " ";
    var e := StripEnd(t);
    assert t[..|s|] == s;
    if s != [] {
      assert t[|s| - 1] == s[|s| - 1];
      assert !IsSpace(s[|s| - 1]);
      assert !IsSpace(s[0]);
    }
    assert IsSpace(t[|s|]) && t[..|t| - 1] == s;
    assert e == StripEnd(s) == s;
  }

  /** What the streaming responder stores: the chunks of a word list,
      glued and stripped, are the words joined by single spaces. */
  lemma StreamedTextIsJoin(ws: seq<string>)
    requires AllWords(ws)
    ensures Strip(Concat(Chunks(ws))) == JoinWords(ws)
  {
    if |ws| == 0 {
      assert Chunks(ws) == [];
    } else {
      ConcatChunks(ws);
      JoinNormalized(ws);
      StripSpaceAfterNormalized(JoinWords(ws));
    }
  }

  // ---------------------------------------------------------------------
  // Round trips between split() and joining with single spaces

  /** A word followed by nothing or by whitespace is read back by `WordLength`. */
  lemma WordLengthOfWord(w: string, t: string)
    requires IsWord(w)
    requires t == [] || IsSpace(t[0])
    ensures WordLength(w + t) == |w|
  {
    var u := w + t;
    forall i | 0 <= i < |w| ensures !IsSpace(u[i]) {
      assert u[i] == w[i];
    }
    if t != [] {
      assert u[|w|] == t[0];
    }
  }

  /** Splitting words joined by single spaces gives the words back. */
  lemma {:induction false} SplitJoin(ws: seq<string>)
    requires AllWords(ws)
    ensures Split(JoinWords(ws)) == ws
  {
    if |ws| == 0 {
    } else {
      var w := ws[0];
      assert IsWord(w);
      var s := JoinWords(ws);
      var t := if |ws| == 1 then "" else " " + JoinWords(ws[1..]);
      assert s == w + t;
      WordLengthOfWord(w, t);
      assert s[..|w|] == w;
      assert s[|w|..] == t;
      assert Split(s) == [w] + Split(t);
      if |ws| > 1 {
        assert AllWords(ws[1..]) by {
          forall k | 0 <= k < |ws[1..]| ensures IsWord(ws[1..][k]) {
            assert ws[1..][k] == ws[k + 1];
          }
        }
        assert t[1..] == JoinWords(ws[1..]);
        SplitJoin(ws[1..]);
        assert Split(t) == Split(t[1..]);
      }
    }
  }

  /** After the first space of a normalized text comes another
      normalized, non-empty text. */
  lemma NormalizedAfterSpace(s: string, n: nat)
    requires Normalized(s) && n < |s| && s[n] == ' '
    ensures n + 1 < |s| && !IsSpace(s[n + 1])
    ensures Normalized(s[n + 1..])
  {
    assert IsSpace(s[n]);
    var rest := s[n + 1..];
    forall i | 0 <= i < |rest| ensures IsSpace(rest[i]) ==> rest[i] == ' ' && 0 < i < |rest| - 1 {
      assert rest[i] == s[n + 1 + i];
    }
    forall i, j | 0 <= i < j < |rest| && j == i + 1 ensures !IsSpace(rest[i]) || !IsSpace(rest[j]) {
      assert rest[i] == s[n + 1 + i] && rest[j] == s[n + 1 + j];
    }
  }

  /** A text that starts with a word splits into that word and the words of the rest. */
  lemma SplitFirstWord(s: string)
    requires s != [] && !IsSpace(s[0])
    ensures Split(s) == [s[..WordLength(s)]] + Split(s[WordLength(s)..])
    ensures WordLength(s) > 0
  {
  }

  /** Joining a word in front of a non-empty word list puts one space between. */
  lemma JoinWordsCons(w: string, ws: seq<string>)
    requires ws != []
    ensures JoinWords([w] + ws) == w + " " + JoinWords(ws)
  {
    assert ([w] + ws)[1..] == ws;
  }

  /** A text made of one word and nothing else splits into that word. */
  lemma SplitSingleWord(s: string)
    requires s != [] && !IsSpace(s[0]) && WordLength(s) == |s|
    ensures Split(s) == [s]
  {
    SplitFirstWord(s);
    assert s[..|s|] == s && s[|s|..] == [];
  }

  /** The inductive step of `JoinSplit`: a word, one space, and a
      non-empty rest that already round-trips. */
  lemma JoinSplitStep(w: string, rest: string)
    requires IsWord(w) && rest != [] && !IsSpace(rest[0])
    requires JoinWords(Split(rest)) == rest
    ensures JoinWords(Split(w + " " + rest)) == w + " " + rest
  {
    var s := w + " " + rest;
    var t := " " + rest;
    assert s == w + t;
    WordLengthOfWord(w, t);
    assert s[..|w|] == w && s[|w|..] == t;
    assert t[1..] == rest;
    var ws := Split(rest);
    assert Split(s) == [w] + ws;
    SplitFirstWord(rest);
    JoinWordsCons(w, ws);
  }

  /** Joining the words of a normalized text with single spaces gives the text back. */
  lemma {:induction false} JoinSplit(s: string)
    requires Normalized(s)
    ensures JoinWords(Split(s)) == s
    decreases |s|
  {
    if s != [] {
      assert !IsSpace(s[0]);
      var n := WordLength(s);
      if n == |s| {
        SplitSingleWord(s);
      } else {
        NormalizedAfterSpace(s, n);
        var w, rest := s[..n], s[n + 1..];
        JoinSplit(rest);
        assert s == w + " " + rest;
        JoinSplitStep(w, rest);
      }
    }
  }

  /** `" ".join(s.split()) == s` holds exactly for the normalized texts. */
  lemma SplitJoinIdentity(s: string)
    ensures JoinWords(Split(s)) == s <==> Normalized(s)
  {
    if Normalized(s) {
      JoinSplit(s);
    }
    JoinNormalized(Split(s));
  }

  /** The text the streaming responder stores for a normalized response is
      the response itself. */
  lemma StreamedTextOfNormalized(s: string)
    requires Normalized(s)
    ensures Strip(Concat(Chunks(Split(s)))) == s
  {
    StreamedTextIsJoin(Split(s));
    JoinSplit(s);
  }
}
