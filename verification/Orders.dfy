/** Strict total orders and the lexicographic order over them: how tuples, strings and lists compare. */
module Orders {

  ghost predicate Total<T(!new)>(less: (T, T) -> bool) {
    && (forall a :: !less(a, a))
    && (forall a, b, c :: less(a, b) && less(b, c) ==> less(a, c))
    && (forall a, b :: a == b || less(a, b) || less(b, a))
  }

  // The first difference decides; a proper prefix comes first.
  predicate Lex<T(==)>(less: (T, T) -> bool, a: seq<T>, b: seq<T>) {
    if a == [] || b == [] then a == [] && b != []
    else if a[0] != b[0] then less(a[0], b[0])
    else Lex(less, a[1..], b[1..])
  }

  lemma {:induction false} LexIrreflexive<T(!new)>(less: (T, T) -> bool, a: seq<T>)
    ensures !Lex(less, a, a)
  {
    if a != [] {
      LexIrreflexive(less, a[1..]);
    }
  }

  lemma {:induction false} LexTransitive<T(!new)>(less: (T, T) -> bool, a: seq<T>, b: seq<T>, c: seq<T>)
    requires Total(less)
    ensures Lex(less, a, b) && Lex(less, b, c) ==> Lex(less, a, c)
  {
    if a != [] && b != [] && c != [] {
      LexTransitive(less, a[1..], b[1..], c[1..]);
    }
  }

  lemma {:induction false} LexDecides<T(!new)>(less: (T, T) -> bool, a: seq<T>, b: seq<T>)
    requires Total(less)
    ensures a == b || Lex(less, a, b) || Lex(less, b, a)
  {
    if a != [] && b != [] && a[0] == b[0] {
      LexDecides(less, a[1..], b[1..]);
      assert a == [a[0]] + a[1..] && b == [b[0]] + b[1..];
    }
  }

  predicate IntLess(a: int, b: int) {
    a < b
  }

  // Byte strings and, read as one number, fixed arrays.
  type Text = seq<int>

  predicate TextLess(a: Text, b: Text) {
    Lex(IntLess, a, b)
  }

  // Tuples of texts.
  type Rank = seq<Text>

  predicate RankLess(a: Rank, b: Rank) {
    Lex(TextLess, a, b)
  }

  lemma TextTotal()
    ensures Total(TextLess)
  {
    assert Total(IntLess);
    forall a: Text ensures !TextLess(a, a) {
      LexIrreflexive(IntLess, a);
    }
    forall a: Text, b: Text, c: Text ensures TextLess(a, b) && TextLess(b, c) ==> TextLess(a, c) {
      LexTransitive(IntLess, a, b, c);
    }
    forall a: Text, b: Text ensures a == b || TextLess(a, b) || TextLess(b, a) {
      LexDecides(IntLess, a, b);
    }
  }

  lemma RankTotal()
    ensures Total(RankLess)
  {
    TextTotal();
    forall a: Rank ensures !RankLess(a, a) {
      LexIrreflexive(TextLess, a);
    }
    forall a: Rank, b: Rank, c: Rank ensures RankLess(a, b) && RankLess(b, c) ==> RankLess(a, c) {
      LexTransitive(TextLess, a, b, c);
    }
    forall a: Rank, b: Rank ensures a == b || RankLess(a, b) || RankLess(b, a) {
      LexDecides(TextLess, a, b);
    }
  }
}
