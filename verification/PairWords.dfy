/**
 The pairing words: a 32-byte key as 23 words, digits of base 3177 under a word list, and the
 spell-check of a half-typed entry.  The word list and its base-3177 printer are parameters.
 */
module PairWords {
  import opened Wrappers
  import opened Bytes
  import opened Orders
  import opened Tokens

  const PAIR_WORD_COUNT: nat := 23

  // The list: 3177 different lower-case words.
  ghost predicate Alphabet(a: seq<string>) {
    && |a| == 3177
    && LowerWords(a)
    && (forall i, j :: 0 <= i < j < |a| ==> a[i] != a[j])
  }

  type Digit = d: nat | d < 3177

  function Value(ds: seq<Digit>): nat {
    if ds == [] then 0 else Value(ds[..|ds| - 1]) * 3177 + ds[|ds| - 1]
  }

  function Digits(n: nat): seq<Digit> {
    if n == 0 then [] else Digits(n / 3177) + [n % 3177]
  }

  function Zeros(k: nat): (z: seq<Digit>)
    ensures |z| == k && forall i :: 0 <= i < k ==> z[i] == 0
  {
    seq(k, i => 0)
  }

  lemma {:induction false} DigitsSpell(n: nat)
    ensures Value(Digits(n)) == n
  {
    if n > 0 {
      DigitsSpell(n / 3177);
    }
  }

  lemma {:induction false} DigitsFit(n: nat, k: nat)
    requires n < Pow(3177, k)
    ensures |Digits(n)| <= k
  {
    if n > 0 {
      assert k > 0;
      DigitsFit(n / 3177, k - 1);
    }
  }

  lemma {:induction false} LeadingZeros(k: nat, ds: seq<Digit>)
    ensures Value(Zeros(k) + ds) == Value(ds)
  {
    var all := Zeros(k) + ds;
    if ds != [] {
      assert all[..|all| - 1] == Zeros(k) + ds[..|ds| - 1];
      LeadingZeros(k, ds[..|ds| - 1]);
    } else if k > 0 {
      assert all[..|all| - 1] == Zeros(k - 1) + [];
      LeadingZeros(k - 1, []);
    }
  }

  // ---- how many words a key takes ----

  lemma ElevenWords()
    ensures Pow(3177, 11) == 332804632685446730854957713121320930873
  {
    assert Pow(3177, 2) == 10093329;
    assert Pow(3177, 3) == 32066506233;
    PowAdd(3177, 3, 3);
    PowAdd(3177, 6, 3);
    PowAdd(3177, 9, 2);
  }

  lemma HalfTheBits()
    ensures Pow(2, 128) == 0x1_0000_0000_0000_0000_0000_0000_0000_0000
  {
    FourGib();
    Pow256(8);
    PowAdd(2, 64, 64);
  }

  // Twenty-two words are just short of 256 bits; twenty-three are enough.
  lemma TwentyThreeWordsAreNeeded()
    ensures Pow(3177, 22) < Pow(2, 256) <= Pow(3177, 23)
  {
    ElevenWords();
    HalfTheBits();
    PowAdd(3177, 11, 11);
    PowAdd(3177, 22, 1);
    PowAdd(2, 128, 128);
  }

  // ---- printing ----

  function WordsFor(a: seq<string>, ds: seq<Digit>): (ws: seq<string>)
    requires |a| == 3177
    ensures |ws| == |ds| && forall i :: 0 <= i < |ds| ==> ws[i] == a[ds[i]]
  {
    seq(|ds|, i requires 0 <= i < |ds| => a[ds[i]])
  }

  // How the printer writes zero: as no word at all, or as one.
  function Printed(n: nat, zeroIsAWord: bool): seq<Digit> {
    if n == 0 && zeroIsAWord then [0] else Digits(n)
  }

  function Encode(a: seq<string>, n: nat, zeroIsAWord: bool): string
    requires |a| == 3177
  {
    Camel(WordsFor(a, Printed(n, zeroIsAWord)))
  }

  function FullWidth(a: seq<string>, n: nat): seq<string>
    requires |a| == 3177
  {
    WordsFor(a, Zeros(if |Digits(n)| <= 23 then 23 - |Digits(n)| else 0) + Digits(n))
  }

  lemma WordsForAreLower(a: seq<string>, ds: seq<Digit>)
    requires Alphabet(a)
    ensures LowerWords(WordsFor(a, ds))
  {
  }

  // Left-padded with the zero word, however the printer writes zero.
  method PrintWords(a: seq<string>, key: nat, zeroIsAWord: bool) returns (s: string)
    requires Alphabet(a) && key < Pow(2, 256)
    ensures s == Camel(FullWidth(a, key))
  {
    KeyDigits(key);
    s := PrintPadded(a, key, zeroIsAWord);
  }

  method PrintPadded(a: seq<string>, key: nat, zeroIsAWord: bool) returns (s: string)
    requires Alphabet(a) && |Digits(key)| <= 23
    ensures s == Camel(FullWidth(a, key))
  {
    var encoded := Encode(a, key, zeroIsAWord);
    EncodedTokens(a, key, zeroIsAWord);
    var have := PairWordTokens(encoded);
    var padding := Padding(a, PAIR_WORD_COUNT - have);
    PadAll(a, PAIR_WORD_COUNT - have, Printed(key, zeroIsAWord), key);
    s := padding + encoded;
  }

  // The zero word, n times.
  method Padding(a: seq<string>, n: nat) returns (s: string)
    requires |a| == 3177
    ensures s == Camel(WordsFor(a, Zeros(n)))
  {
    s := [];
    for i := 0 to n
      invariant s == Camel(WordsFor(a, Zeros(i)))
    {
      PadOnce(a, i);
      s := s + Capital(a[0]);
    }
  }

  lemma EncodedTokens(a: seq<string>, key: nat, zeroIsAWord: bool)
    requires Alphabet(a)
    ensures |WordsOf(Encode(a, key, zeroIsAWord))| == |Printed(key, zeroIsAWord)|
  {
    WordsForAreLower(a, Printed(key, zeroIsAWord));
    CamelTokens(WordsFor(a, Printed(key, zeroIsAWord)));
  }

  lemma PadOnce(a: seq<string>, k: nat)
    requires |a| == 3177
    ensures Camel(WordsFor(a, Zeros(k + 1))) == Camel(WordsFor(a, Zeros(k))) + Capital(a[0])
  {
    var more := WordsFor(a, Zeros(k + 1));
    assert more[..|more| - 1] == WordsFor(a, Zeros(k)) && more[|more| - 1] == a[0];
  }

  lemma WordsForConcat(a: seq<string>, x: seq<Digit>, y: seq<Digit>)
    requires |a| == 3177
    ensures WordsFor(a, x + y) == WordsFor(a, x) + WordsFor(a, y)
  {
    var left, right := WordsFor(a, x + y), WordsFor(a, x) + WordsFor(a, y);
    forall i | 0 <= i < |x| + |y| ensures left[i] == right[i] {
      var d := (x + y)[i];
      assert d == if i < |x| then x[i] else y[i - |x|];
    }
  }

  lemma PaddedDigits(k: nat, ds: seq<Digit>, key: nat)
    requires |Digits(key)| <= 23 && k + |ds| == 23 && (ds == Digits(key) || (key == 0 && ds == [0]))
    ensures Zeros(k) + ds == Zeros(23 - |Digits(key)|) + Digits(key)
  {
  }

  lemma PadAll(a: seq<string>, k: nat, ds: seq<Digit>, key: nat)
    requires |a| == 3177 && |Digits(key)| <= 23
    requires k + |ds| == 23 && (ds == Digits(key) || (key == 0 && ds == [0]))
    ensures Camel(WordsFor(a, Zeros(k))) + Camel(WordsFor(a, ds)) == Camel(FullWidth(a, key))
  {
    PaddedDigits(k, ds, key);
    WordsForConcat(a, Zeros(k), ds);
    CamelConcat(WordsFor(a, Zeros(k)), WordsFor(a, ds));
  }

  function Joined<T>(parts: seq<seq<T>>): seq<T> {
    if parts == [] then [] else parts[0] + Joined(parts[1..])
  }

  lemma {:induction false} JoinedConcat<T>(x: seq<seq<T>>, y: seq<seq<T>>)
    ensures Joined(x + y) == Joined(x) + Joined(y)
  {
    if x == [] {
      assert x + y == y;
    } else {
      JoinedConcat(x[1..], y);
      assert (x + y)[0] == x[0] && (x + y)[1..] == x[1..] + y;
    }
  }

  function Capitals(ws: seq<string>): (r: seq<string>)
    ensures |r| == |ws| && forall i :: 0 <= i < |ws| ==> r[i] == Capital(ws[i])
  {
    seq(|ws|, i requires 0 <= i < |ws| => Capital(ws[i]))
  }

  lemma {:induction false} CamelIsJoined(ws: seq<string>)
    ensures Camel(ws) == Joined(Capitals(ws))
  {
    if ws != [] {
      CamelIsJoined(ws[..|ws| - 1]);
      JoinedSnoc(Capitals(ws[..|ws| - 1]), Capital(ws[|ws| - 1]));
      CapitalsSnoc(ws);
    }
  }

  lemma JoinedSnoc<T>(parts: seq<seq<T>>, p: seq<T>)
    ensures Joined(parts + [p]) == Joined(parts) + p
  {
    JoinedConcat(parts, [p]);
    assert [p][1..] == [];
  }

  lemma CapitalsSnoc(ws: seq<string>)
    requires ws != []
    ensures Capitals(ws) == Capitals(ws[..|ws| - 1]) + [Capital(ws[|ws| - 1])]
  {
  }

  lemma CapitalsConcat(x: seq<string>, y: seq<string>)
    ensures Capitals(x + y) == Capitals(x) + Capitals(y)
  {
    var a, b := Capitals(x + y), Capitals(x) + Capitals(y);
    forall i | 0 <= i < |x| + |y| ensures a[i] == b[i] {
      CapitalAt(x, y, i);
    }
  }

  lemma CapitalAt(x: seq<string>, y: seq<string>, i: nat)
    requires i < |x| + |y|
    ensures (x + y)[i] == if i < |x| then x[i] else y[i - |x|]
  {
  }

  lemma CamelConcat(x: seq<string>, y: seq<string>)
    ensures Camel(x + y) == Camel(x) + Camel(y)
  {
    CamelIsJoined(x);
    CamelIsJoined(y);
    CamelIsJoined(x + y);
    JoinedConcat(Capitals(x), Capitals(y));
    CapitalsConcat(x, y);
  }

  lemma KeyDigits(key: nat)
    requires key < Pow(2, 256)
    ensures |Digits(key)| <= 23
  {
    TwentyThreeWordsAreNeeded();
    DigitsFit(key, 23);
  }

  // ---- reading ----

  datatype WordsError = WrongCount | UnrecognisedWord | TooLarge

  function IndexOf(a: seq<string>, w: string): (i: nat)
    ensures i <= |a| && (i < |a| ==> a[i] == w)
    ensures i == |a| <==> w !in a
  {
    if a == [] then 0 else if a[0] == w then 0 else 1 + IndexOf(a[1..], w)
  }

  // The positional value of a run of words; nothing when one is not in the list.
  function Decode(a: seq<string>, ws: seq<string>): Option<nat>
    requires |a| == 3177
  {
    if ws == [] then Some(0)
    else
      var high, d := Decode(a, ws[..|ws| - 1]), IndexOf(a, ws[|ws| - 1]);
      if high.None? || d == |a| then None else Some(high.value * 3177 + d)
  }

  function WordsToKey(a: seq<string>, s: string): Result<nat, WordsError>
    requires |a| == 3177
  {
    if |WordsOf(s)| != PAIR_WORD_COUNT then Err(WrongCount)
    else
      match Decode(a, WordsOf(s))
      case None => Err(UnrecognisedWord)
      case Some(n) => if n < Pow(2, 256) then Ok(n) else Err(TooLarge)
  }

  lemma {:induction false} DecodeSpells(a: seq<string>, ds: seq<Digit>)
    requires Alphabet(a)
    ensures Decode(a, WordsFor(a, ds)) == Some(Value(ds))
  {
    if ds != [] {
      var ws := WordsFor(a, ds);
      assert ws[..|ws| - 1] == WordsFor(a, ds[..|ds| - 1]);
      DecodeSpells(a, ds[..|ds| - 1]);
      var i, d := IndexOf(a, ws[|ws| - 1]), ds[|ds| - 1];
      assert a[d] in a;
      assert i == d by {
        assert a[i] == a[d];
      }
    }
  }

  // Every key prints as exactly 23 words and reads back, typed camelCase or with spaces.
  lemma KeyRoundTrip(a: seq<string>, key: nat)
    requires Alphabet(a) && key < Pow(2, 256)
    ensures |FullWidth(a, key)| == PAIR_WORD_COUNT && LowerWords(FullWidth(a, key))
    ensures WordsToKey(a, Camel(FullWidth(a, key))) == Ok(key)
    ensures WordsToKey(a, Spaced(FullWidth(a, key))) == Ok(key)
  {
    KeyDigits(key);
    var zeros := Zeros(PAIR_WORD_COUNT - |Digits(key)|);
    DecodeSpells(a, zeros + Digits(key));
    LeadingZeros(|zeros|, Digits(key));
    DigitsSpell(key);
    CamelTokens(FullWidth(a, key));
    SpacedTokens(FullWidth(a, key));
  }

  lemma {:induction false} DigitAt(n: nat, i: nat)
    requires i < |Digits(n)|
    ensures Digits(n)[i] == n / Pow(3177, |Digits(n)| - 1 - i) % 3177
  {
    var front := Digits(n / 3177);
    if i < |front| {
      DigitAt(n / 3177, i);
      DivDiv(n, 3177, Pow(3177, |front| - 1 - i), Pow(3177, |front| - i));
    }
  }

  lemma {:induction false} PastTheDigits(n: nat, e: nat)
    requires e >= |Digits(n)|
    ensures n / Pow(3177, e) == 0
  {
    if n > 0 {
      PastTheDigits(n / 3177, e - 1);
      DivDiv(n, 3177, Pow(3177, e - 1), Pow(3177, e));
    } else {
      DivUnique(0, Pow(3177, e), 0, 0);
    }
  }

  // Word i of a key is the list's entry for its i-th base-3177 digit, the most significant first.
  lemma WordAt(a: seq<string>, key: nat, i: nat)
    requires Alphabet(a) && key < Pow(2, 256) && i < PAIR_WORD_COUNT
    ensures |FullWidth(a, key)| == PAIR_WORD_COUNT
    ensures FullWidth(a, key)[i] == a[key / Pow(3177, PAIR_WORD_COUNT - 1 - i) % 3177]
  {
    KeyDigits(key);
    var n := |Digits(key)|;
    if i >= PAIR_WORD_COUNT - n {
      DigitAt(key, i - (PAIR_WORD_COUNT - n));
    } else {
      PastTheDigits(key, PAIR_WORD_COUNT - 1 - i);
    }
  }

  // Different keys print different words.
  lemma PrintingIsInjective(a: seq<string>, j: nat, k: nat)
    requires Alphabet(a) && j < Pow(2, 256) && k < Pow(2, 256)
    ensures Camel(FullWidth(a, j)) == Camel(FullWidth(a, k)) <==> j == k
  {
    KeyRoundTrip(a, j);
    KeyRoundTrip(a, k);
  }

  // ---- the mask ----

  type Bits = seq<bv8>

  function Xor(x: Bits, m: Bits): (r: Bits)
    requires |x| == |m|
    ensures |r| == |x| && forall i :: 0 <= i < |x| ==> r[i] == x[i] ^ m[i]
  {
    seq(|x|, i requires 0 <= i < |x| => x[i] ^ m[i])
  }

  // The same mask twice is no mask.
  lemma XorUndoes(x: Bits, m: Bits)
    requires |x| == |m|
    ensures Xor(Xor(x, m), m) == x
  {
  }

  function Spelled(x: Bits): (s: seq<byte>)
    ensures |s| == |x|
  {
    seq(|x|, i requires 0 <= i < |x| => x[i] as nat)
  }

  // The printer's input, the key's big-endian number.
  function KeyNumber(x: Bits): nat {
    BeValue(Spelled(x))
  }

  lemma {:induction false} KeyNumberDetermines(x: Bits, y: Bits)
    requires |x| == |y| && KeyNumber(x) == KeyNumber(y)
    ensures x == y
  {
    if x != [] {
      var p, q := Spelled(x), Spelled(y);
      assert p[..|p| - 1] == Spelled(x[..|x| - 1]) && q[..|q| - 1] == Spelled(y[..|y| - 1]);
      SameSplit(BeValue(p[..|p| - 1]), p[|p| - 1], BeValue(q[..|q| - 1]), q[|q| - 1]);
      KeyNumberDetermines(x[..|x| - 1], y[..|y| - 1]);
      assert x[|x| - 1] as nat == y[|y| - 1] as nat;
    }
  }

  lemma SameSplit(m: nat, r: byte, n: nat, t: byte)
    requires m * 256 + r == n * 256 + t
    ensures m == n && r == t
  {
  }

  lemma KeyNumberFits(x: Bits)
    requires |x| == 32
    ensures KeyNumber(x) < Pow(2, 256)
  {
    BeBound(Spelled(x));
    Pow256(32);
  }

  method MaskedDeviceWords(a: seq<string>, device: Bits, mask: Bits, zeroIsAWord: bool) returns (s: string)
    requires Alphabet(a) && |device| == |mask| == 32
    ensures s == Camel(FullWidth(a, KeyNumber(Xor(device, mask))))
  {
    var masked := device;
    for i := 0 to 32
      invariant |masked| == 32
      invariant forall j :: 0 <= j < 32 ==> masked[j] == if j < i then device[j] ^ mask[j] else device[j]
    {
      masked := masked[i := masked[i] ^ mask[i]];
    }
    assert masked == Xor(device, mask);
    KeyNumberFits(masked);
    s := PrintWords(a, KeyNumber(masked), zeroIsAWord);
  }

  // What the words of a device decode to, unmasked, is that device and no other.
  lemma UnmaskingFindsTheDevice(a: seq<string>, device: Bits, mask: Bits, key: Bits)
    requires Alphabet(a) && |device| == |mask| == |key| == 32
    ensures WordsToKey(a, Camel(FullWidth(a, KeyNumber(Xor(device, mask))))) == Ok(KeyNumber(key))
            <==> Xor(key, mask) == device
  {
    KeyNumberFits(Xor(device, mask));
    KeyRoundTrip(a, KeyNumber(Xor(device, mask)));
    if KeyNumber(key) == KeyNumber(Xor(device, mask)) {
      KeyNumberDetermines(key, Xor(device, mask));
    }
    XorUndoes(device, mask);
    XorUndoes(key, mask);
  }

  // ---- spell-check ----

  predicate CharLess(a: char, b: char) {
    a < b
  }

  predicate WordLess(a: string, b: string) {
    Lex(CharLess, a, b)
  }

  ghost predicate SortedWords(ws: seq<string>) {
    forall i, j :: 0 <= i < j < |ws| ==> WordLess(ws[i], ws[j])
  }

  // The first index not below w.
  function PartitionPoint(sorted: seq<string>, w: string): (i: nat)
    ensures i <= |sorted|
    ensures forall j :: 0 <= j < i ==> WordLess(sorted[j], w)
    ensures i < |sorted| ==> !WordLess(sorted[i], w)
  {
    if sorted == [] || !WordLess(sorted[0], w) then 0 else 1 + PartitionPoint(sorted[1..], w)
  }

  predicate Begins(w: string, p: string) {
    |p| <= |w| && w[..|p|] == p
  }

  // A word between p and a word that p begins is itself begun by p.
  lemma {:induction false} BetweenBegins(p: string, x: string, y: string)
    requires !WordLess(x, p) && !WordLess(y, x) && Begins(y, p)
    ensures Begins(x, p)
  {
    if p != [] {
      assert y[..|p|][0] == p[0];
      assert x != [] && x[0] == p[0] && y[0] == p[0];
      assert y[1..][..|p| - 1] == y[..|p|][1..] == p[1..];
      BetweenBegins(p[1..], x[1..], y[1..]);
      assert x == [x[0]] + x[1..] && p == [p[0]] + p[1..];
      assert x[..|p|] == [x[0]] + x[1..][..|p| - 1];
    }
  }

  lemma {:induction false} BegunIsNotBelow(p: string, y: string)
    requires Begins(y, p)
    ensures !WordLess(y, p)
  {
    if p != [] {
      assert y[..|p|][0] == p[0] && y[1..][..|p| - 1] == y[..|p|][1..] == p[1..];
      BegunIsNotBelow(p[1..], y[1..]);
    }
  }

  predicate Starts(sorted: seq<string>, p: string) {
    var i := PartitionPoint(sorted, p);
    i < |sorted| && Begins(sorted[i], p)
  }

  lemma CharTotal()
    ensures Total(CharLess)
  {
  }

  // One probe decides it: the word at the partition point begins with p iff some list word does.
  lemma OneProbeDecides(sorted: seq<string>, p: string)
    requires SortedWords(sorted)
    ensures Starts(sorted, p) <==> exists w :: w in sorted && Begins(w, p)
  {
    var i := PartitionPoint(sorted, p);
    if w :| w in sorted && Begins(w, p) {
      var j :| 0 <= j < |sorted| && sorted[j] == w;
      BegunIsNotBelow(p, w);
      assert i <= j;
      if i < j {
        CharTotal();
        LexTransitive(CharLess, w, sorted[i], w);
        LexIrreflexive(CharLess, w);
        assert WordLess(sorted[i], w);
      } else {
        LexIrreflexive(CharLess, w);
      }
      BetweenBegins(p, sorted[i], w);
    }
  }

  // Does the i-th token of an entry pass?
  predicate Passes(sorted: seq<string>, ws: seq<string>, i: nat, lastComplete: bool)
    requires i < |ws|
  {
    if i + 1 < |ws| || lastComplete then ws[i] in sorted else Starts(sorted, ws[i])
  }

  ghost predicate FirstPass(sorted: seq<string>, ws: seq<string>, n: nat, lastComplete: bool) {
    n <= |ws| && forall i :: 0 <= i < n ==> Passes(sorted, ws, i, lastComplete)
  }

  ghost predicate NeverFlagged(sorted: seq<string>, s: string) {
    FirstPass(sorted, WordsOf(s), |WordsOf(s)|, s != TrimEnd(s))
  }

  // The first token that fails, if any.
  method FirstBadPairWord(sorted: seq<string>, s: string) returns (bad: Option<string>, ghost at: nat)
    ensures bad.None? <==> NeverFlagged(sorted, s)
    ensures bad.Some? ==> at < |WordsOf(s)| && bad.value == WordsOf(s)[at]
    ensures bad.Some?
            ==> FirstPass(sorted, WordsOf(s), at, s != TrimEnd(s)) && !Passes(sorted, WordsOf(s), at, s != TrimEnd(s))
  {
    var words := PairWordList(s);
    var lastComplete := s != TrimEnd(s);
    for i := 0 to |words|
      invariant FirstPass(sorted, words, i, lastComplete)
    {
      var ok := if i + 1 < |words| || lastComplete then words[i] in sorted else Starts(sorted, words[i]);
      if !ok {
        assert !Passes(sorted, words, i, lastComplete);
        return Some(words[i]), i;
      }
    }
    return None, |words|;
  }

  // An entry is flagged exactly when a token is no list word, unless it is the last one, with nothing
  // typed after it, and some list word begins with it.
  lemma FlaggedIff(sorted: seq<string>, s: string)
    requires SortedWords(sorted)
    ensures NeverFlagged(sorted, s) <==>
            forall i :: 0 <= i < |WordsOf(s)| ==>
              || WordsOf(s)[i] in sorted
              || (i == |WordsOf(s)| - 1 && s == TrimEnd(s) && exists w :: w in sorted && Begins(w, WordsOf(s)[i]))
  {
    var ws := WordsOf(s);
    forall i | 0 <= i < |ws|
      ensures Passes(sorted, ws, i, s != TrimEnd(s))
              <==> || ws[i] in sorted
                   || (i == |ws| - 1 && s == TrimEnd(s) && exists w :: w in sorted && Begins(w, ws[i]))
    {
      OneProbeDecides(sorted, ws[i]);
      assert Begins(ws[i], ws[i]);
    }
  }

  // Nothing flashes red on the way to a correct entry: every beginning of its camelCase form passes.
  lemma {:induction false} CorrectTypingIsNeverFlagged(sorted: seq<string>, ws: seq<string>, q: nat)
    requires SortedWords(sorted) && LowerWords(ws) && (forall i :: 0 <= i < |ws| ==> ws[i] in sorted)
    requires q <= |Camel(ws)|
    ensures NeverFlagged(sorted, Camel(ws)[..q])
  {
    if ws == [] {
      assert Camel(ws)[..q] == [] && WordsOf([]) == [];
    } else {
      var front, w := ws[..|ws| - 1], ws[|ws| - 1];
      if q <= |Camel(front)| {
        CorrectTypingIsNeverFlagged(sorted, front, q);
        assert Camel(ws)[..q] == Camel(front)[..q];
      } else {
        var k := q - |Camel(front)|;
        assert Camel(ws)[..q] == Camel(front) + Capital(w)[..k];
        PartlyTypedPasses(sorted, front, w, k);
      }
    }
  }

  // Nor on the way through its spaced form, where a finished word is checked once its space is typed.
  lemma {:induction false} CorrectSpacedTypingIsNeverFlagged(sorted: seq<string>, ws: seq<string>, q: nat)
    requires SortedWords(sorted) && LowerWords(ws) && (forall i :: 0 <= i < |ws| ==> ws[i] in sorted)
    requires q <= |Spaced(ws)|
    ensures NeverFlagged(sorted, Spaced(ws)[..q])
  {
    if q == 0 {
      assert Spaced(ws)[..q] == [] && WordsOf([]) == [];
    } else {
      var front, w := ws[..|ws| - 1], ws[|ws| - 1];
      var p := Spaced(front);
      if |ws| == 1 {
        OneWordPasses(sorted, w, q);
      } else if q <= |p| {
        CorrectSpacedTypingIsNeverFlagged(sorted, front, q);
        assert Spaced(ws)[..q] == p[..q];
      } else if q == |p| + 1 {
        assert Spaced(ws)[..q] == p + [' '];
        TrailingSpace(front);
      } else {
        var k := q - |p| - 1;
        assert Spaced(ws)[..q] == p + [' '] + w[..k];
        NextWordPasses(sorted, front, w, k);
      }
    }
  }

  lemma OneWordPasses(sorted: seq<string>, w: string, k: nat)
    requires SortedWords(sorted) && LowerWord(w) && 0 < k <= |w| && w in sorted
    ensures NeverFlagged(sorted, w[..k])
  {
    OneWordSoFar(w, k);
    BeginningStarts(sorted, w, k);
    LastMayBePartial(sorted, [], w[..k]);
    assert [] + [w[..k]] == [w[..k]];
  }

  lemma NextWordPasses(sorted: seq<string>, front: seq<string>, w: string, k: nat)
    requires SortedWords(sorted) && LowerWords(front) && front != [] && LowerWord(w) && 0 < k <= |w| && w in sorted
    requires forall i :: 0 <= i < |front| ==> front[i] in sorted
    ensures NeverFlagged(sorted, Spaced(front) + [' '] + w[..k])
  {
    SpacedSoFar(front, w, k);
    BeginningStarts(sorted, w, k);
    LastMayBePartial(sorted, front, w[..k]);
  }

  lemma PartlyTypedTokens(front: seq<string>, w: string, k: nat)
    requires LowerWords(front) && LowerWord(w) && 0 < k <= |w|
    ensures var s := Camel(front) + Capital(w)[..k];
            WordsOf(s) == front + [w[..k]] && s == TrimEnd(s)
  {
    var s := Camel(front) + Capital(w)[..k];
    CamelReadsBack(front);
    PartialCamel(front, w, k);
    CamelIsLetters(front);
    CapitalIsLetters(w, k);
    LettersConcat(Camel(front), Capital(w)[..k]);
    LettersTrim(s);
  }

  lemma LastMayBePartial(sorted: seq<string>, front: seq<string>, p: string)
    requires (forall i :: 0 <= i < |front| ==> front[i] in sorted) && Starts(sorted, p)
    ensures FirstPass(sorted, front + [p], |front| + 1, false)
  {
    forall i | 0 <= i < |front| + 1 ensures Passes(sorted, front + [p], i, false) {
      assert i < |front| ==> (front + [p])[i] == front[i];
    }
  }

  lemma BeginningStarts(sorted: seq<string>, w: string, k: nat)
    requires SortedWords(sorted) && w in sorted && k <= |w|
    ensures Starts(sorted, w[..k])
  {
    assert Begins(w, w[..k]);
    OneProbeDecides(sorted, w[..k]);
  }

  lemma PartlyTypedPasses(sorted: seq<string>, front: seq<string>, w: string, k: nat)
    requires SortedWords(sorted) && LowerWords(front) && LowerWord(w) && 0 < k <= |w| && w in sorted
    requires forall i :: 0 <= i < |front| ==> front[i] in sorted
    ensures NeverFlagged(sorted, Camel(front) + Capital(w)[..k])
  {
    PartlyTypedTokens(front, w, k);
    BeginningStarts(sorted, w, k);
    LastMayBePartial(sorted, front, w[..k]);
  }

  lemma {:induction false} TrimEndShortens(s: string)
    ensures |TrimEnd(s)| <= |s| && (TrimEnd(s) == s <==> |TrimEnd(s)| == |s|)
  {
    if s != [] && Space(s[|s| - 1]) {
      TrimEndShortens(s[..|s| - 1]);
    }
  }

  // The spell-check ignores case where the splitting does.
  lemma SpellCheckIgnoresCase(sorted: seq<string>, s: string)
    requires AnySpace(Trim(s)) || !InnerCapital(Trim(s))
    ensures NeverFlagged(sorted, Lowered(s)) <==> NeverFlagged(sorted, s)
  {
    CaseIgnoredIff(s);
    TrimEndOfLowered(s);
    TrimEndShortens(s);
    TrimEndShortens(Lowered(s));
  }

  // It does not elsewhere: a list word typed in capitals is flagged.
  lemma CapitalsAreFlagged(sorted: seq<string>)
    requires SortedWords(sorted) && "ab" in sorted && "a" !in sorted
    ensures NeverFlagged(sorted, "ab") && !NeverFlagged(sorted, "AB")
  {
    CapitalsSplit();
    assert LowerWord("ab") && "ab"[..2] == "ab";
    OneWordPasses(sorted, "ab", 2);
    assert !Passes(sorted, WordsOf("AB"), 0, "AB" != TrimEnd("AB"));
  }

  // The completeness gate for the network check.
  predicate EntryComplete(sorted: seq<string>, s: string) {
    |WordsOf(s)| == PAIR_WORD_COUNT && forall w :: w in WordsOf(s) ==> w in sorted
  }

  // The gate opens only for an entry the decoder knows every word of.
  lemma {:induction false} KnownWordsDecode(a: seq<string>, ws: seq<string>)
    requires |a| == 3177
    ensures Decode(a, ws).Some? <==> forall i :: 0 <= i < |ws| ==> ws[i] in a
  {
    if ws != [] {
      KnownWordsDecode(a, ws[..|ws| - 1]);
      var last := ws[|ws| - 1];
      assert forall i :: 0 <= i < |ws| - 1 ==> ws[..|ws| - 1][i] == ws[i];
    }
  }

  lemma CompleteEntryDecodesOrOverflows(a: seq<string>, sorted: seq<string>, s: string)
    requires |a| == 3177 && forall w :: w in sorted <==> w in a
    ensures EntryComplete(sorted, s) <==> WordsToKey(a, s).Ok? || WordsToKey(a, s) == Err(TooLarge)
  {
    KnownWordsDecode(a, WordsOf(s));
    assert forall i :: 0 <= i < |WordsOf(s)| ==> WordsOf(s)[i] in WordsOf(s);
  }
}
