/**
 How a typed pairing entry splits into words: at whitespace when it holds any, else at capitals.
 */
module Tokens {

  predicate AsciiSpace(c: char) {
    c == ' ' || c == '\t' || c == '\n' || c == '\r' || c == '\U{000C}'
  }

  // What `trim` strips: Unicode's White_Space.
  predicate Space(c: char) {
    || AsciiSpace(c) || c == '\U{000B}' || c == '\U{0085}' || c == '\U{00A0}' || c == '\U{1680}'
    || '\U{2000}' <= c <= '\U{200A}' || c == '\U{2028}' || c == '\U{2029}' || c == '\U{202F}' || c == '\U{205F}'
    || c == '\U{3000}'
  }

  predicate Upper(c: char) {
    'A' <= c <= 'Z'
  }

  function Lower(c: char): char {
    if Upper(c) then (c as int + 32) as char else c
  }

  function Lowered(s: string): (r: string)
    ensures |r| == |s| && forall i :: 0 <= i < |s| ==> r[i] == Lower(s[i])
  {
    seq(|s|, i requires 0 <= i < |s| => Lower(s[i]))
  }

  function TrimStart(s: string): string {
    if s != [] && Space(s[0]) then TrimStart(s[1..]) else s
  }

  function TrimEnd(s: string): string {
    if s != [] && Space(s[|s| - 1]) then TrimEnd(s[..|s| - 1]) else s
  }

  function Trim(s: string): string {
    TrimEnd(TrimStart(s))
  }

  predicate AnySpace(t: string) {
    exists i :: 0 <= i < |t| && AsciiSpace(t[i])
  }

  // The last word grown by one character.
  function Grown(ws: seq<string>, c: char): seq<string> {
    if ws == [] then [[c]] else ws[..|ws| - 1] + [ws[|ws| - 1] + [c]]
  }

  // Words between runs of ASCII whitespace.
  function SpacedWords(t: string): seq<string> {
    if t == [] then []
    else
      var front, c := t[..|t| - 1], t[|t| - 1];
      if AsciiSpace(c) then SpacedWords(front)
      else if front != [] && !AsciiSpace(front[|front| - 1]) then Grown(SpacedWords(front), c)
      else SpacedWords(front) + [[c]]
  }

  // Words between capitals, lowered.
  function CamelWords(t: string): (ws: seq<string>)
    ensures t != [] <==> ws != []
  {
    if t == [] then []
    else
      var front, c := t[..|t| - 1], t[|t| - 1];
      if Upper(c) && front != [] then CamelWords(front) + [[Lower(c)]]
      else Grown(CamelWords(front), Lower(c))
  }

  function EachLowered(ws: seq<string>): (r: seq<string>)
    ensures |r| == |ws| && forall i :: 0 <= i < |ws| ==> r[i] == Lowered(ws[i])
  {
    seq(|ws|, i requires 0 <= i < |ws| => Lowered(ws[i]))
  }

  // The tokens of an entry.
  function WordsOf(s: string): seq<string> {
    var t := Trim(s);
    if AnySpace(t) then EachLowered(SpacedWords(t)) else CamelWords(t)
  }

  // One turn of the splitting loop: `out` holds the finished words and `cur` the one being read.
  lemma SplitStep(out: seq<string>, cur: string, front: string, c: char)
    requires if front == [] then out == [] && cur == [] else cur != [] && out + [cur] == CamelWords(front)
    ensures CamelWords(front + [c]) ==
            if Upper(c) && cur != [] then out + [cur] + [[Lower(c)]] else out + [cur + [Lower(c)]]
  {
    CamelStep(front, c);
    if front == [] {
      assert [] + [Lower(c)] == [Lower(c)] && out + [[Lower(c)]] == [[Lower(c)]];
    } else {
      GrowLast(out, cur, Lower(c));
    }
  }

  method PairWordList(s: string) returns (out: seq<string>)
    ensures out == WordsOf(s)
  {
    var t := Trim(s);
    if t == [] {
      return [];
    }
    if AnySpace(t) {
      return EachLowered(SpacedWords(t));
    }
    out := [];
    var cur: string := [];
    for i := 0 to |t|
      invariant cur == [] <==> i == 0
      invariant i == 0 ==> out == []
      invariant i > 0 ==> out + [cur] == CamelWords(t[..i])
    {
      assert t[..i + 1] == t[..i] + [t[i]];
      SplitStep(out, cur, t[..i], t[i]);
      if Upper(t[i]) && cur != [] {
        out := out + [cur];
        cur := [];
        assert cur + [Lower(t[i])] == [Lower(t[i])];
      }
      cur := cur + [Lower(t[i])];
    }
    assert t[..|t|] == t;
    if cur != [] {
      out := out + [cur];
    }
  }

  // The counter counts without building: one word, and one more at each later capital.
  method PairWordTokens(s: string) returns (n: nat)
    ensures n == |WordsOf(s)|
  {
    var t := Trim(s);
    if t == [] {
      return 0;
    }
    if AnySpace(t) {
      return |SpacedWords(t)|;
    }
    n := 1;
    for i := 1 to |t|
      invariant n == |CamelWords(t[..i])|
    {
      assert t[..i + 1][..i] == t[..i];
      if Upper(t[i]) {
        n := n + 1;
      }
    }
    assert t[..|t|] == t;
  }

  // ---- printed words ----

  predicate LowerWord(w: string) {
    w != [] && forall i :: 0 <= i < |w| ==> 'a' <= w[i] <= 'z'
  }

  function Up(c: char): char {
    if 'a' <= c <= 'z' then (c as int - 32) as char else c
  }

  function Capital(w: string): (r: string)
    ensures |r| == |w|
  {
    if w == [] then [] else [Up(w[0])] + w[1..]
  }

  predicate LowerWords(ws: seq<string>) {
    forall i :: 0 <= i < |ws| ==> LowerWord(ws[i])
  }

  function Camel(ws: seq<string>): string {
    if ws == [] then [] else Camel(ws[..|ws| - 1]) + Capital(ws[|ws| - 1])
  }

  lemma CamelSnoc(ws: seq<string>, w: string)
    ensures Camel(ws + [w]) == Camel(ws) + Capital(w)
  {
    assert (ws + [w])[..|ws|] == ws;
  }

  function Spaced(ws: seq<string>): string {
    if ws == [] then []
    else if |ws| == 1 then ws[0]
    else Spaced(ws[..|ws| - 1]) + [' '] + ws[|ws| - 1]
  }

  ghost predicate Letters(s: string) {
    forall i :: 0 <= i < |s| ==> 'a' <= s[i] <= 'z' || 'A' <= s[i] <= 'Z'
  }

  lemma CapitalLetters(w: string, i: nat)
    requires LowerWord(w) && i < |w|
    ensures Lower(Capital(w)[i]) == w[i] && (Upper(Capital(w)[i]) <==> i == 0)
  {
    assert 'a' <= w[i] <= 'z';
  }

  lemma CapitalIsLetters(w: string, q: nat)
    requires LowerWord(w) && q <= |w|
    ensures Letters(Capital(w)[..q])
  {
    forall i | 0 <= i < q ensures 'a' <= Capital(w)[i] <= 'z' || 'A' <= Capital(w)[i] <= 'Z' {
      assert 'a' <= w[i] <= 'z';
    }
  }

  lemma LettersConcat(s: string, t: string)
    requires Letters(s) && Letters(t)
    ensures Letters(s + t)
  {
  }

  lemma {:induction false} CamelIsLetters(ws: seq<string>)
    requires LowerWords(ws)
    ensures Letters(Camel(ws)) && (ws != [] ==> Camel(ws) != [])
  {
    if ws != [] {
      var front, w := ws[..|ws| - 1], ws[|ws| - 1];
      CamelIsLetters(front);
      CapitalIsLetters(w, |w|);
      assert Capital(w)[..|w|] == Capital(w);
      LettersConcat(Camel(front), Capital(w));
    }
  }

  lemma LettersTrim(s: string)
    requires Letters(s)
    ensures Trim(s) == s && TrimEnd(s) == s && !AnySpace(s)
  {
  }

  lemma CamelStep(front: string, c: char)
    ensures CamelWords(front + [c]) ==
            if Upper(c) && front != [] then CamelWords(front) + [[Lower(c)]] else Grown(CamelWords(front), Lower(c))
  {
    assert (front + [c])[..|front|] == front;
  }

  lemma GrowLast(ws: seq<string>, w: string, c: char)
    ensures Grown(ws + [w], c) == ws + [w + [c]]
  {
  }

  lemma OneMoreLetter(w: string, q: nat)
    requires q < |w|
    ensures w[..q + 1] == w[..q] + [w[q]]
  {
  }

  // Words, then the first q letters of one more: the tokens are the words and that beginning.
  lemma {:induction false} PartialCamel(ws: seq<string>, w: string, q: nat)
    requires LowerWords(ws) && LowerWord(w) && 0 < q <= |w|
    requires CamelWords(Camel(ws)) == ws
    ensures CamelWords(Camel(ws) + Capital(w)[..q]) == ws + [w[..q]]
  {
    var s, c := Camel(ws) + Capital(w)[..q - 1], Capital(w)[q - 1];
    CapitalLetters(w, q - 1);
    OneMoreLetter(w, q - 1);
    OneMoreLetter(Capital(w), q - 1);
    assert Camel(ws) + Capital(w)[..q] == s + [c];
    CamelStep(s, c);
    if q == 1 {
      assert s == Camel(ws) && w[..0] + [w[0]] == [w[0]];
    } else {
      PartialCamel(ws, w, q - 1);
      GrowLast(ws, w[..q - 1], w[q - 1]);
    }
  }

  lemma {:induction false} CamelReadsBack(ws: seq<string>)
    requires LowerWords(ws)
    ensures CamelWords(Camel(ws)) == ws
  {
    if ws == [] {
      assert CamelWords([]) == [];
    } else {
      var front, w := ws[..|ws| - 1], ws[|ws| - 1];
      assert ws == front + [w];
      CamelReadsBack(front);
      CamelReadsOne(front, w);
    }
  }

  lemma CamelReadsOne(ws: seq<string>, w: string)
    requires LowerWords(ws) && LowerWord(w) && CamelWords(Camel(ws)) == ws
    ensures CamelWords(Camel(ws + [w])) == ws + [w]
  {
    PartialCamel(ws, w, |w|);
    CamelSnoc(ws, w);
    assert Capital(w)[..|w|] == Capital(w) && w[..|w|] == w;
  }

  // A printed entry's tokens are its words.
  lemma CamelTokens(ws: seq<string>)
    requires LowerWords(ws)
    ensures WordsOf(Camel(ws)) == ws
  {
    CamelIsLetters(ws);
    LettersTrim(Camel(ws));
    CamelReadsBack(ws);
  }

  lemma SpacedStep(front: string, c: char)
    requires !AsciiSpace(c)
    ensures SpacedWords(front + [c]) ==
            if front != [] && !AsciiSpace(front[|front| - 1]) then Grown(SpacedWords(front), c)
            else SpacedWords(front) + [[c]]
  {
    assert (front + [c])[..|front|] == front;
  }

  lemma {:induction false} GrowWord(ws: seq<string>, s: string, w: string, q: nat)
    requires SpacedWords(s) == ws && LowerWord(w) && 0 < q <= |w| && (s == [] || AsciiSpace(s[|s| - 1]))
    ensures SpacedWords(s + w[..q]) == ws + [w[..q]]
  {
    var front, c := s + w[..q - 1], w[q - 1];
    OneMoreLetter(w, q - 1);
    assert s + w[..q] == front + [c];
    SpacedStep(front, c);
    if q == 1 {
      assert front == s && w[..0] + [c] == [c];
    } else {
      GrowWord(ws, s, w, q - 1);
      assert front[|front| - 1] == w[q - 2];
      GrowLast(ws, w[..q - 1], c);
    }
  }

  lemma {:induction false} SpacedReadsBack(ws: seq<string>)
    requires LowerWords(ws)
    ensures SpacedWords(Spaced(ws)) == ws
  {
    if ws != [] {
      var front, w := ws[..|ws| - 1], ws[|ws| - 1];
      SpacedReadsBack(front);
      assert w[..|w|] == w && front + [w] == ws;
      if |ws| == 1 {
        GrowWord([], [], w, |w|);
        assert [] + w == w;
      } else {
        var s := Spaced(front) + [' '];
        assert s[..|s| - 1] == Spaced(front);
        GrowWord(front, s, w, |w|);
      }
    }
  }

  lemma {:induction false} SpacedEnds(ws: seq<string>)
    requires LowerWords(ws) && ws != []
    ensures var s := Spaced(ws);
            s != [] && 'a' <= s[0] <= 'z' && 'a' <= s[|s| - 1] <= 'z' && !Space(s[0]) && !Space(s[|s| - 1])
    ensures |ws| > 1 ==> AnySpace(Spaced(ws))
  {
    if |ws| > 1 {
      SpacedEnds(ws[..|ws| - 1]);
      var s, k := Spaced(ws), |Spaced(ws[..|ws| - 1])|;
      assert s[k] == ' ' && s[0] == Spaced(ws[..|ws| - 1])[0];
      assert s[|s| - 1] == ws[|ws| - 1][|ws[|ws| - 1]| - 1];
    }
  }

  lemma AlreadyLowered(ws: seq<string>)
    requires LowerWords(ws)
    ensures EachLowered(ws) == ws
  {
    forall i | 0 <= i < |ws| ensures Lowered(ws[i]) == ws[i] {
      assert LowerWord(ws[i]);
    }
  }

  lemma NothingToTrim(s: string)
    requires s != [] && !Space(s[0]) && !Space(s[|s| - 1])
    ensures Trim(s) == s
  {
  }

  // So are those of the spaced form.
  lemma SpacedTokens(ws: seq<string>)
    requires LowerWords(ws) && |ws| > 1
    ensures WordsOf(Spaced(ws)) == ws
  {
    SpacedEnds(ws);
    SpacedReadsBack(ws);
    AlreadyLowered(ws);
    TokensOfSpaced(Spaced(ws), ws);
  }

  // ---- case ----

  predicate InnerCapital(t: string) {
    exists i :: 1 <= i < |t| && Upper(t[i])
  }

  // Without inner whitespace it is the capitals after the first letter that split.
  lemma {:induction false} OneWordIff(t: string)
    ensures |CamelWords(t)| <= 1 <==> !InnerCapital(t)
    ensures t != [] && !InnerCapital(t) ==> CamelWords(t) == [Lowered(t)]
  {
    if t != [] {
      var front, c := t[..|t| - 1], t[|t| - 1];
      OneWordIff(front);
      assert InnerCapital(t) <==> InnerCapital(front) || (front != [] && Upper(c));
      assert t == front + [c];
      LoweredSnoc(front, c);
      assert Lowered([]) + [Lower(c)] == [Lower(c)];
      if front != [] && !InnerCapital(t) {
        GrowLast([], Lowered(front), Lower(c));
        assert [] + [Lowered(front)] == [Lowered(front)];
      } else if front == [] {
        assert Lowered(front) == [];
      }
    }
  }

  lemma LoweredSnoc(front: string, c: char)
    ensures Lowered(front + [c]) == Lowered(front) + [Lower(c)]
  {
  }

  lemma LoweredTwice(s: string)
    ensures Lowered(Lowered(s)) == Lowered(s) && !InnerCapital(Lowered(s))
  {
  }

  lemma {:induction false} TrimStartOfLowered(s: string)
    ensures TrimStart(Lowered(s)) == Lowered(TrimStart(s))
  {
    if s != [] && Space(s[0]) {
      assert Lowered(s)[1..] == Lowered(s[1..]);
      TrimStartOfLowered(s[1..]);
    }
  }

  lemma {:induction false} TrimEndOfLowered(s: string)
    ensures TrimEnd(Lowered(s)) == Lowered(TrimEnd(s))
  {
    if s != [] && Space(s[|s| - 1]) {
      assert Lowered(s)[..|s| - 1] == Lowered(s[..|s| - 1]);
      TrimEndOfLowered(s[..|s| - 1]);
    }
  }

  lemma EachLoweredSnoc(ws: seq<string>, w: string)
    ensures EachLowered(ws + [w]) == EachLowered(ws) + [Lowered(w)]
  {
  }

  lemma GrownLowered(ws: seq<string>, c: char)
    ensures EachLowered(Grown(ws, c)) == Grown(EachLowered(ws), Lower(c))
  {
    if ws == [] {
      assert Lowered([c]) == [Lower(c)];
    } else {
      var front, w := ws[..|ws| - 1], ws[|ws| - 1];
      assert ws == front + [w];
      EachLoweredSnoc(front, w);
      EachLoweredSnoc(front, w + [c]);
      LoweredSnoc(w, c);
      GrowLast(EachLowered(front), Lowered(w), Lower(c));
    }
  }

  lemma {:induction false} SpacedWordsOfLowered(t: string)
    ensures SpacedWords(Lowered(t)) == EachLowered(SpacedWords(t))
  {
    if t != [] {
      var front, c := t[..|t| - 1], t[|t| - 1];
      SpacedWordsOfLowered(front);
      assert Lowered(t)[..|t| - 1] == Lowered(front);
      GrownLowered(SpacedWords(front), c);
      EachLoweredSnoc(SpacedWords(front), [c]);
      assert Lowered([c]) == [Lower(c)];
    }
  }

  lemma EachLoweredTwice(ws: seq<string>)
    ensures EachLowered(EachLowered(ws)) == EachLowered(ws)
  {
    forall i | 0 <= i < |ws| ensures EachLowered(EachLowered(ws))[i] == Lowered(ws[i]) {
      LoweredTwice(ws[i]);
    }
  }

  // Case is ignored iff the entry holds inner whitespace or no capital past its first letter.
  lemma CaseIgnoredIff(s: string)
    ensures WordsOf(Lowered(s)) == WordsOf(s) <==> AnySpace(Trim(s)) || !InnerCapital(Trim(s))
  {
    var t := Trim(s);
    TrimStartOfLowered(s);
    TrimEndOfLowered(TrimStart(s));
    assert Trim(Lowered(s)) == Lowered(t);
    assert AnySpace(Lowered(t)) <==> AnySpace(t) by {
      assert forall i :: 0 <= i < |t| ==> (AsciiSpace(Lowered(t)[i]) <==> AsciiSpace(t[i]));
    }
    if AnySpace(t) {
      SpacedWordsOfLowered(t);
      EachLoweredTwice(SpacedWords(t));
    } else {
      OneWordIff(t);
      OneWordIff(Lowered(t));
      LoweredTwice(t);
    }
  }

  // A word in capitals is not ignored: it splits at every letter.
  lemma CapitalsSplit()
    ensures WordsOf("AB") == ["a", "b"] && WordsOf("ab") == ["ab"]
  {
    assert Letters("AB") && Letters("ab");
    LettersTrim("AB");
    LettersTrim("ab");
    CamelStep([], 'A');
    CamelStep("A", 'B');
    OneWordIff("ab");
    assert Lowered("ab") == "ab";
    assert [] + ['A'] == "A" && "A" + ['B'] == "AB";
  }

  // ---- the spaced form as it is typed ----

  lemma SpacedSoFarReads(front: seq<string>, w: string, k: nat)
    requires LowerWords(front) && LowerWord(w) && 0 < k <= |w|
    ensures SpacedWords(Spaced(front) + [' '] + w[..k]) == front + [w[..k]]
  {
    var base := Spaced(front) + [' '];
    SpacedReadsBack(front);
    assert base[..|base| - 1] == Spaced(front);
    GrowWord(front, base, w, k);
  }

  lemma SpacedSoFarEnds(p: string, w: string, k: nat)
    requires p != [] && !Space(p[0]) && LowerWord(w) && 0 < k <= |w|
    ensures var s := p + [' '] + w[..k]; s != [] && !Space(s[0]) && !Space(s[|s| - 1]) && AnySpace(s) && s == TrimEnd(s)
  {
    var s := p + [' '] + w[..k];
    assert s[|p|] == ' ' && s[0] == p[0] && s[|s| - 1] == w[k - 1];
  }

  // A finished word, a space and the next word's first letters: the last token is the beginning typed.
  lemma SpacedSoFar(front: seq<string>, w: string, k: nat)
    requires LowerWords(front) && front != [] && LowerWord(w) && 0 < k <= |w|
    ensures var s := Spaced(front) + [' '] + w[..k]; WordsOf(s) == front + [w[..k]] && s == TrimEnd(s)
  {
    SpacedEnds(front);
    SpacedSoFarReads(front, w, k);
    SpacedSoFarEnds(Spaced(front), w, k);
    assert LowerWord(w[..k]);
    AlreadyLowered(front + [w[..k]]);
    TokensOfSpaced(Spaced(front) + [' '] + w[..k], front + [w[..k]]);
  }

  lemma OneWordSoFar(w: string, k: nat)
    requires LowerWord(w) && 0 < k <= |w|
    ensures WordsOf(w[..k]) == [w[..k]] && w[..k] == TrimEnd(w[..k])
  {
    var s := w[..k];
    assert LowerWord(s) && Letters(s);
    LettersTrim(s);
    OneWordIff(s);
    AlreadyLowered([s]);
    assert Lowered(s) == EachLowered([s])[0];
  }

  lemma TrailingSpace(ws: seq<string>)
    requires LowerWords(ws) && ws != []
    ensures var s := Spaced(ws) + [' ']; WordsOf(s) == ws && s != TrimEnd(s)
  {
    var p, s := Spaced(ws), Spaced(ws) + [' '];
    SpacedEnds(ws);
    assert s[..|s| - 1] == p && s[0] == p[0];
    NothingToTrim(p);
    assert Space(' ') && TrimEnd(s) == TrimEnd(p) == p;
    assert TrimStart(s) == s;
    if |ws| > 1 {
      SpacedTokens(ws);
    } else {
      OneWordSoFar(ws[0], |ws[0]|);
      assert ws[0][..|ws[0]|] == ws[0] && ws == [ws[0]];
    }
  }

  lemma TokensOfSpaced(s: string, ws: seq<string>)
    requires s != [] && !Space(s[0]) && !Space(s[|s| - 1]) && AnySpace(s) && SpacedWords(s) == ws
             && EachLowered(ws) == ws
    ensures WordsOf(s) == ws
  {
    NothingToTrim(s);
  }
}
