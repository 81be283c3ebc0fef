/**
 * Text preparation for the content-similarity model: cleaning a synopsis
 * (`limpar_texto`) and building the weighted feature string of one catalogue
 * row (`criar_features_de_texto`). The Portuguese stopword list is a parameter.
 */
module TextFeatures {
  import opened Options
  import opened Text

  /** A catalogue cell as pandas hands it to `limpar_texto`: a string, or some other value (a float NaN, a number). */
  datatype Cell = Str(s: string) | NonStr

  predicate IsLetter(c: char) { 'a' <= c <= 'z' }

  /** `re.sub(r'[^a-z\s]', '', s)`: every character that is neither a lower-case ASCII letter nor whitespace is dropped. */
  function KeepLetters(s: string): (r: string)
    ensures |r| <= |s|
    ensures forall i :: 0 <= i < |r| ==> IsLetter(r[i]) || IsSpace(r[i])
    decreases |s|
  {
    if s == [] then []
    else (if IsLetter(s[0]) || IsSpace(s[0]) then [s[0]] else []) + KeepLetters(s[1..])
  }

  /** A word in the sense of `str.split()`: non-empty, no whitespace. */
  predicate IsWord(w: string) {
    w != [] && forall i :: 0 <= i < |w| ==> !IsSpace(w[i])
  }

  /** The length of the leading run of non-whitespace characters. */
  function WordLen(s: string): (n: nat)
    ensures n <= |s|
    ensures forall i :: 0 <= i < n ==> !IsSpace(s[i])
    ensures n < |s| ==> IsSpace(s[n])
    decreases |s|
  {
    if s == [] || IsSpace(s[0]) then 0 else 1 + WordLen(s[1..])
  }

  /** `s.split()`: the maximal runs of non-whitespace, in order. */
  function Words(s: string): (ws: seq<string>)
    ensures forall k :: 0 <= k < |ws| ==> IsWord(ws[k])
    decreases |s|
  {
    if s == [] then []
    else if IsSpace(s[0]) then Words(s[1..])
    else
      var n := WordLen(s);
      [s[..n]] + Words(s[n..])
  }

  /** Every character of every word comes from the split string. */
  lemma {:induction false} WordCharsFrom(s: string)
    ensures forall k, i :: 0 <= k < |Words(s)| && 0 <= i < |Words(s)[k]| ==> Words(s)[k][i] in s
    decreases |s|
  {
    if s != [] {
      if IsSpace(s[0]) {
        WordCharsFrom(s[1..]);
      } else {
        var n := WordLen(s);
        WordCharsFrom(s[n..]);
        var ws := Words(s);
        assert ws == [s[..n]] + Words(s[n..]);
        forall k, i | 0 <= k < |ws| && 0 <= i < |ws[k]| ensures ws[k][i] in s {
          if k == 0 {
            assert ws[k][i] == s[i];
          } else {
            assert ws[k] == Words(s[n..])[k - 1];
            assert ws[k][i] in s[n..];
          }
        }
      }
    }
  }

  /** `[w for w in ws if w not in stop]`. */
  function DropStopwords(ws: seq<string>, stop: set<string>): seq<string>
    decreases |ws|
  {
    if ws == [] then []
    else (if ws[0] in stop then [] else [ws[0]]) + DropStopwords(ws[1..], stop)
  }

  /** Exactly the words not in `stop` survive. */
  lemma {:induction false} DropStopwordsMembers(ws: seq<string>, stop: set<string>)
    ensures forall w :: w in DropStopwords(ws, stop) <==> w in ws && w !in stop
    decreases |ws|
  {
    if ws != [] {
      DropStopwordsMembers(ws[1..], stop);
      assert forall w :: w in ws <==> w == ws[0] || w in ws[1..];
    }
  }

  /** The words that survive cleaning, before they are joined again. */
  function CleanWords(s: string, stop: set<string>): seq<string> {
    DropStopwords(Words(KeepLetters(Lower(s))), stop)
  }

  /** `limpar_texto` on a string: lower-case, strip, split, drop stopwords, `" ".join`. */
  function CleanText(s: string, stop: set<string>): string {
    JoinWith(' ', CleanWords(s, stop))
  }

  /** `limpar_texto`: a non-string input gives `None`. */
  function Clean(c: Cell, stop: set<string>): (r: Option<string>)
    ensures r.None? <==> c.NonStr?
  {
    match c
    case Str(s) => Some(CleanText(s, stop))
    case NonStr => None
  }

  /** Only `a`-`z` and single spaces, with no space at either end. */
  predicate WellSpaced(r: string) {
    && (forall i :: 0 <= i < |r| ==> IsLetter(r[i]) || r[i] == ' ')
    && (r != [] ==> r[0] != ' ' && r[|r| - 1] != ' ')
    && (forall i :: 0 <= i < |r| - 1 ==> r[i] != ' ' || r[i + 1] != ' ')
  }

  predicate LetterWord(w: string) {
    w != [] && forall i :: 0 <= i < |w| ==> IsLetter(w[i])
  }

  // ---------------------------------------------------------------------------
  // How `str.split()` sees concatenations.

  lemma {:induction false} WordLenAppend(x: string, z: string)
    requires WordLen(x) < |x| || (z != [] && IsSpace(z[0]))
    ensures WordLen(x + z) == WordLen(x)
    decreases |x|
  {
    if x != [] && !IsSpace(x[0]) {
      assert (x + z)[1..] == x[1..] + z;
      WordLenAppend(x[1..], z);
    }
  }

  /** A word at the front of `x` stays the first word of `x + z` when `z` starts with whitespace. */
  lemma FirstWordOfAppend(x: string, z: string)
    requires x != [] && !IsSpace(x[0]) && z != [] && IsSpace(z[0])
    ensures WordLen(x + z) == WordLen(x)
    ensures Words(x + z) == [x[..WordLen(x)]] + Words(x[WordLen(x)..] + z)
  {
    var k := WordLen(x);
    var w := x + z;
    assert WordLen(w) == k by {
      WordLenAppend(x, z);
    }
    assert Words(w) == [w[..k]] + Words(w[k..]) by {
      assert w[0] == x[0];
    }
    assert w[..k] == x[..k] by {
      assert forall i :: 0 <= i < k ==> w[i] == x[i];
    }
    assert w[k..] == x[k..] + z;
  }

  /** Splitting `x + " " + y` splits `x` and `y` separately. */
  lemma {:induction false} WordsSpaceConcat(x: string, y: string)
    ensures Words(x + " " + y) == Words(x) + Words(y)
    decreases |x|
  {
    var s := x + " " + y;
    if x == [] {
      assert Words(s) == Words(y) by {
        assert s[1..] == y;
      }
    } else if IsSpace(x[0]) {
      assert Words(s) == Words(x[1..] + " " + y) by {
        assert s[1..] == x[1..] + " " + y;
      }
      WordsSpaceConcat(x[1..], y);
    } else {
      var k := WordLen(x);
      assert Words(s) == [x[..k]] + Words(x[k..] + " " + y) by {
        assert s == x + (" " + y);
        FirstWordOfAppend(x, " " + y);
        assert x[k..] + (" " + y) == x[k..] + " " + y;
      }
      WordsSpaceConcat(x[k..], y);
    }
  }

  lemma {:induction false} WordLenOfWord(w: string)
    requires forall i :: 0 <= i < |w| ==> !IsSpace(w[i])
    ensures WordLen(w) == |w|
    decreases |w|
  {
    if w != [] {
      WordLenOfWord(w[1..]);
    }
  }

  lemma WordsOfWord(w: string)
    requires IsWord(w)
    ensures Words(w) == [w]
  {
    WordLenOfWord(w);
    assert w[..|w|] == w && w[|w|..] == [];
  }

  /** All the words of the parts, in order. */
  function FlatWords(parts: seq<string>): seq<string>
    decreases |parts|
  {
    if parts == [] then [] else Words(parts[0]) + FlatWords(parts[1..])
  }

  /** Splitting a space-joined list splits each part in turn. */
  lemma {:induction false} WordsOfJoin(parts: seq<string>)
    ensures Words(JoinWith(' ', parts)) == FlatWords(parts)
    decreases |parts|
  {
    if |parts| == 1 {
      assert FlatWords(parts) == Words(parts[0]) + [];
    } else if |parts| > 1 {
      WordsOfJoin(parts[1..]);
      WordsSpaceConcat(parts[0], JoinWith(' ', parts[1..]));
    }
  }

  lemma {:induction false} FlatWordsOfWords(ws: seq<string>)
    requires forall k :: 0 <= k < |ws| ==> IsWord(ws[k])
    ensures FlatWords(ws) == ws
    decreases |ws|
  {
    if ws != [] {
      WordsOfWord(ws[0]);
      FlatWordsOfWords(ws[1..]);
    }
  }

  /** `" ".join(ws).split() == ws` for a list of words. */
  lemma SplitUndoesJoin(ws: seq<string>)
    requires forall k :: 0 <= k < |ws| ==> IsWord(ws[k])
    ensures Words(JoinWith(' ', ws)) == ws
  {
    WordsOfJoin(ws);
    FlatWordsOfWords(ws);
  }

  lemma {:induction false} JoinWellSpaced(ws: seq<string>)
    requires forall k :: 0 <= k < |ws| ==> LetterWord(ws[k])
    ensures WellSpaced(JoinWith(' ', ws))
    decreases |ws|
  {
    if |ws| > 1 {
      JoinWellSpaced(ws[1..]);
      var a, b := ws[0], JoinWith(' ', ws[1..]);
      var r := a + [' '] + b;
      assert JoinWith(' ', ws) == r;
      assert b != [] by { assert |ws[1..]| == 1 || b == ws[1] + [' '] + JoinWith(' ', ws[2..]); }
      forall i | 0 <= i < |r| - 1 ensures r[i] != ' ' || r[i + 1] != ' ' {
        if i < |a| - 1 {
        } else if i == |a| - 1 {
        } else if i == |a| {
          assert r[i + 1] == b[0];
        } else {
          assert r[i] == b[i - |a| - 1] && r[i + 1] == b[i - |a|];
        }
      }
    }
  }

  /** A word that survives cleaning consists of lower-case ASCII letters and is no stopword. */
  lemma CleanWordsAreLetters(s: string, stop: set<string>)
    ensures forall k :: 0 <= k < |CleanWords(s, stop)| ==> LetterWord(CleanWords(s, stop)[k]) && CleanWords(s, stop)[k] !in stop
  {
    var kept := KeepLetters(Lower(s));
    var ws := CleanWords(s, stop);
    DropStopwordsMembers(Words(kept), stop);
    WordCharsFrom(kept);
    forall k | 0 <= k < |ws| ensures LetterWord(ws[k]) && ws[k] !in stop {
      assert ws[k] in Words(kept);
      forall i | 0 <= i < |ws[k]| ensures IsLetter(ws[k][i]) {
        var kk :| 0 <= kk < |Words(kept)| && Words(kept)[kk] == ws[k];
        assert ws[k][i] in kept;
      }
    }
  }

  /** What `limpar_texto` promises about its output. */
  lemma CleanTextShape(s: string, stop: set<string>)
    ensures WellSpaced(CleanText(s, stop))
    ensures Words(CleanText(s, stop)) == CleanWords(s, stop)
    ensures forall w :: w in Words(CleanText(s, stop)) ==> w !in stop
  {
    CleanWordsAreLetters(s, stop);
    JoinWellSpaced(CleanWords(s, stop));
    SplitUndoesJoin(CleanWords(s, stop));
  }

  /** Dropping stopwords keeps the survivors in their input order. */
  lemma {:induction false} DropStopwordsAppend(a: seq<string>, b: seq<string>, stop: set<string>)
    ensures DropStopwords(a + b, stop) == DropStopwords(a, stop) + DropStopwords(b, stop)
    decreases |a|
  {
    if a == [] {
      assert a + b == b;
    } else {
      assert (a + b)[0] == a[0] && (a + b)[1..] == a[1..] + b;
      DropStopwordsAppend(a[1..], b, stop);
      var h := if a[0] in stop then [] else [a[0]];
      assert DropStopwords(a + b, stop) == h + (DropStopwords(a[1..], stop) + DropStopwords(b, stop));
      assert DropStopwords(a, stop) == h + DropStopwords(a[1..], stop);
    }
  }

  lemma {:induction false} KeepLettersFixes(s: string)
    requires forall i :: 0 <= i < |s| ==> IsLetter(s[i]) || s[i] == ' '
    ensures KeepLetters(s) == s
    decreases |s|
  {
    if s != [] {
      KeepLettersFixes(s[1..]);
    }
  }

  lemma {:induction false} DropStopwordsFixes(ws: seq<string>, stop: set<string>)
    requires forall k :: 0 <= k < |ws| ==> ws[k] !in stop
    ensures DropStopwords(ws, stop) == ws
    decreases |ws|
  {
    if ws != [] {
      DropStopwordsFixes(ws[1..], stop);
    }
  }

  /** Cleaning the space-joined list of clean words gives it back. */
  lemma CleanFixesCleanJoin(ws: seq<string>, stop: set<string>)
    requires forall k :: 0 <= k < |ws| ==> LetterWord(ws[k]) && ws[k] !in stop
    ensures CleanText(JoinWith(' ', ws), stop) == JoinWith(' ', ws)
  {
    var r := JoinWith(' ', ws);
    JoinWellSpaced(ws);
    LowerFixesLowercase(r);
    KeepLettersFixes(r);
    SplitUndoesJoin(ws);
    DropStopwordsFixes(ws, stop);
  }

  /** `limpar_texto` is idempotent on strings. */
  lemma CleanIdempotent(s: string, stop: set<string>)
    ensures Clean(Str(CleanText(s, stop)), stop) == Clean(Str(s), stop)
  {
    CleanWordsAreLetters(s, stop);
    CleanFixesCleanJoin(CleanWords(s, stop), stop);
  }

  // ---------------------------------------------------------------------------
  // The feature string of one catalogue row.

  /** The text columns of one catalogue row; `None` is a missing cell, which `fillna('')` turns into `""`. */
  datatype MovieText = MovieText(synopsis: Option<string>, genres: Option<string>, director: Option<string>, actors: Option<string>)

  /** `" ".join(x.split('|'))`. */
  function PipesToSpaces(s: string): string {
    JoinWith(' ', SplitOn('|', s))
  }

  /** Each `|` becomes exactly one space and nothing else changes. */
  lemma PipesBecomeSpaces(s: string)
    ensures |PipesToSpaces(s)| == |s|
    ensures forall i :: 0 <= i < |s| ==> PipesToSpaces(s)[i] == if s[i] == '|' then ' ' else s[i]
  {
    JoinSplitReplaces('|', ' ', s);
  }

  /** Python's `s * k`. */
  function Repeat(s: string, k: nat): string
    decreases k
  {
    if k == 0 then "" else s + Repeat(s, k - 1)
  }

  /** The cleaned synopsis of a row (`sinopse_limpa`). */
  function CleanSynopsis(m: MovieText, stop: set<string>): string {
    CleanText(m.synopsis.GetOr(""), stop)
  }

  /** `feature_pnl` as written: synopsis three times and genres twice, each repetition without a separator. */
  function FeatureString(m: MovieText, stop: set<string>): string {
    Repeat(CleanSynopsis(m, stop), 3) + " "
    + Repeat(PipesToSpaces(m.genres.GetOr("")), 2) + " "
    + PipesToSpaces(m.director.GetOr("")) + " "
    + PipesToSpaces(m.actors.GetOr(""))
  }

  /** The row used to exhibit the fused words: synopsis "ab cd", every other column missing. */
  function FusedExample(): MovieText {
    MovieText(Some("ab cd"), None, None, None)
  }

  lemma FusedExampleSynopsis()
    ensures CleanSynopsis(FusedExample(), {}) == "ab cd"
  {
    var ws := ["ab", "cd"];
    assert LetterWord(ws[0]) && LetterWord(ws[1]);
    CleanFixesCleanJoin(ws, {});
    assert JoinWith(' ', ws) == "ab cd";
  }

  lemma {:induction false} ConcatWord(y: string, x: string)
    requires IsWord(x) && IsWord(y)
    ensures IsWord(y + x)
  {
    var yx := y + x;
    forall i | 0 <= i < |yx| ensures !IsSpace(yx[i]) {
      if i < |y| { assert yx[i] == y[i]; } else { assert yx[i] == x[i - |y|]; }
    }
  }

  lemma BlankWords()
    ensures Words(" " + " ") == []
  {
    assert Words("") == [];
    WordsSpaceConcat("", "");
    WordsSpaceConcat("", " ");
    assert "" + " " + " " == " " + " ";
  }

  /** The words of `x yx yx y` followed by blanks, for words `x`, `yx` and `y`. */
  lemma FourWords(x: string, yx: string, y: string)
    requires IsWord(x) && IsWord(yx) && IsWord(y)
    ensures Words(x + " " + (yx + " " + (yx + " " + (y + " " + (" " + " "))))) == [x, yx, yx, y]
  {
    var blanks := " " + " ";
    BlankWords();
    WordsOfWord(y);
    WordsSpaceConcat(y, blanks);
    WordsOfWord(yx);
    WordsSpaceConcat(yx, y + " " + blanks);
    WordsSpaceConcat(yx, yx + " " + (y + " " + blanks));
    WordsOfWord(x);
    WordsSpaceConcat(x, yx + " " + (yx + " " + (y + " " + blanks)));
  }

  lemma RepeatedPairLayout(x: string, y: string)
    ensures Repeat(x + " " + y, 3) + " " + "" + " " + "" + " " + ""
      == x + " " + ((y + x) + " " + ((y + x) + " " + (y + " " + (" " + " "))))
  {
    var c := x + " " + y;
    assert Repeat(c, 3) == c + (c + (c + ""));
  }

  /** Three unseparated copies of the two-word text `x y`, followed by three empty fields. */
  lemma RepeatedPairWords(x: string, y: string)
    requires IsWord(x) && IsWord(y)
    ensures Words(Repeat(x + " " + y, 3) + " " + "" + " " + "" + " " + "") == [x, y + x, y + x, y]
  {
    ConcatWord(y, x);
    RepeatedPairLayout(x, y);
    FourWords(x, y + x, y);
  }

  /** With genres, director and actors missing, the feature string is the repeated synopsis followed by three empty fields. */
  lemma SynopsisOnlyFeature(m: MovieText, stop: set<string>)
    requires m.genres.None? && m.director.None? && m.actors.None?
    ensures FeatureString(m, stop) == Repeat(CleanSynopsis(m, stop), 3) + " " + "" + " " + "" + " " + ""
  {
    assert SplitOn('|', "") == [""];
    assert PipesToSpaces("") == "";
    assert Repeat("", 2) == "";
  }

  /** The two words of the example synopsis, and what they fuse into. */
  lemma AbCd()
    ensures IsWord("ab") && IsWord("cd")
    ensures "ab" + " " + "cd" == "ab cd" && "cd" + "ab" == "cdab"
  {
  }

  lemma FusedExampleFeature()
    ensures FeatureString(FusedExample(), {}) == Repeat("ab" + " " + "cd", 3) + " " + "" + " " + "" + " " + ""
  {
    FusedExampleSynopsis();
    AbCd();
    SynopsisOnlyFeature(FusedExample(), {});
  }

  /**
   * With nothing between the copies, the last word of one copy of the
   * synopsis and the first word of the next fuse into a word the synopsis
   * does not contain: "ab cd" contributes "ab" once and "cdab" twice.
   */
  lemma RepeatedSynopsisFusesWords()
    ensures Words(FeatureString(FusedExample(), {})) == ["ab", "cdab", "cdab", "cd"]
  {
    AbCd();
    FusedExampleFeature();
    RepeatedPairWords("ab", "cd");
  }

  lemma TwoWords(x: string, y: string)
    requires IsWord(x) && IsWord(y)
    ensures Words(x + " " + y) == [x, y]
  {
    WordsOfWord(x);
    WordsOfWord(y);
    WordsSpaceConcat(x, y);
  }

  /** The synopsis of the example row has just the two words "ab" and "cd". */
  lemma FusedExampleWords()
    ensures Words(CleanSynopsis(FusedExample(), {})) == ["ab", "cd"]
  {
    FusedExampleSynopsis();
    AbCd();
    TwoWords("ab", "cd");
  }

  /** The evidently intended weighting: every copy and every field separated by one space. */
  function WeightedFeatureString(m: MovieText, stop: set<string>): string {
    var c := CleanSynopsis(m, stop);
    var g := PipesToSpaces(m.genres.GetOr(""));
    var d := PipesToSpaces(m.director.GetOr(""));
    var a := PipesToSpaces(m.actors.GetOr(""));
    c + " " + (c + " " + (c + " " + (g + " " + (g + " " + (d + " " + a)))))
  }

  /** The words of seven space-separated fields, field by field. */
  lemma SevenFieldWords(c: string, g: string, d: string, a: string)
    ensures Words(c + " " + (c + " " + (c + " " + (g + " " + (g + " " + (d + " " + a))))))
      == Words(c) + (Words(c) + (Words(c) + (Words(g) + (Words(g) + (Words(d) + Words(a))))))
  {
    WordsSpaceConcat(d, a);
    WordsSpaceConcat(g, d + " " + a);
    WordsSpaceConcat(g, g + " " + (d + " " + a));
    WordsSpaceConcat(c, g + " " + (g + " " + (d + " " + a)));
    WordsSpaceConcat(c, c + " " + (g + " " + (g + " " + (d + " " + a))));
    WordsSpaceConcat(c, c + " " + (c + " " + (g + " " + (g + " " + (d + " " + a)))));
  }

  /** In the corrected string the synopsis words occur exactly three times over and the genre words twice. */
  lemma WeightedFeatureWords(m: MovieText, stop: set<string>)
    ensures
      var c := Words(CleanSynopsis(m, stop));
      var g := Words(PipesToSpaces(m.genres.GetOr("")));
      Words(WeightedFeatureString(m, stop))
      == c + (c + (c + (g + (g + (Words(PipesToSpaces(m.director.GetOr(""))) + Words(PipesToSpaces(m.actors.GetOr(""))))))))
  {
    SevenFieldWords(CleanSynopsis(m, stop), PipesToSpaces(m.genres.GetOr("")),
                    PipesToSpaces(m.director.GetOr("")), PipesToSpaces(m.actors.GetOr("")));
  }
}
