// Literal search through ILIKE: escaping the pattern, the backtracking matcher, and the relevance ranking.
module LikeEscape {

  predicate IsMeta(c: char) {
    c == '\\' || c == '%' || c == '_'
  }

  // Every non-overlapping occurrence of a non-empty `from`, left to right.
  function ReplaceAll(s: string, from: string, to: string): string
    requires from != ""
  {
    if |s| < |from| then s
    else if s[..|from|] == from then to + ReplaceAll(s[|from|..], from, to)
    else [s[0]] + ReplaceAll(s[1..], from, to)
  }

  // Three passes; the backslash has to go first.
  function EscapeLike(s: string): string {
    ReplaceAll(ReplaceAll(ReplaceAll(s, "\\", "\\\\"), "%", "\\%"), "_", "\\_")
  }

  function EscapeChar(c: char): string {
    if IsMeta(c) then ['\\', c] else [c]
  }

  function EscapeEach(s: string): string {
    if s == "" then "" else EscapeChar(s[0]) + EscapeEach(s[1..])
  }

  lemma {:induction false} ReplaceConcat(a: string, b: string, c: char, to: string)
    ensures ReplaceAll(a + b, [c], to) == ReplaceAll(a, [c], to) + ReplaceAll(b, [c], to)
    decreases |a|
  {
    if a == "" {
      assert a + b == b;
    } else {
      ReplaceConcat(a[1..], b, c, to);
      assert (a + b)[1..] == a[1..] + b;
      assert (a + b)[..1] == a[..1];
    }
  }

  lemma ReplaceOne(x: char, c: char, to: string)
    ensures ReplaceAll([x], [c], to) == if x == c then to else [x]
  {
    assert [x][..1] == [x] && [x][1..] == "";
  }

  lemma ReplaceTwo(x: char, y: char, c: char, to: string)
    ensures ReplaceAll([x, y], [c], to) == (if x == c then to else [x]) + (if y == c then to else [y])
  {
    ReplaceConcat([x], [y], c, to);
    ReplaceOne(x, c, to);
    ReplaceOne(y, c, to);
    assert [x] + [y] == [x, y];
  }

  lemma EscapeOne(x: char)
    ensures EscapeLike([x]) == EscapeChar(x)
  {
    ReplaceOne(x, '\\', "\\\\");
    ReplaceOne(x, '%', "\\%");
    ReplaceOne(x, '_', "\\_");
    ReplaceTwo('\\', '\\', '%', "\\%");
    ReplaceTwo('\\', '\\', '_', "\\_");
    ReplaceTwo('\\', '%', '_', "\\_");
  }

  // The three passes over the whole string equal one pass over its characters: no pass touches what
  // an earlier one put in.
  lemma {:induction false} EscapeIsPerChar(s: string)
    ensures EscapeLike(s) == EscapeEach(s)
  {
    if s != "" {
      EscapeIsPerChar(s[1..]);
      EscapeOne(s[0]);
      var once, rest := ReplaceAll([s[0]], "\\", "\\\\"), ReplaceAll(s[1..], "\\", "\\\\");
      ReplaceConcat([s[0]], s[1..], '\\', "\\\\");
      ReplaceConcat(once, rest, '%', "\\%");
      ReplaceConcat(ReplaceAll(once, "%", "\\%"), ReplaceAll(rest, "%", "\\%"), '_', "\\_");
      assert [s[0]] + s[1..] == s;
    }
  }

  // LIKE with escape character '\': '%' is any run of characters, '_' any single one, and an escaped
  // character stands for itself. A pattern that ends in a lone escape matches nothing here.
  predicate Like(p: string, s: string)
    decreases |p| + |s|
  {
    if p == "" then s == ""
    else if p[0] == '%' then Like(p[1..], s) || (s != "" && Like(p, s[1..]))
    else if p[0] == '_' then s != "" && Like(p[1..], s[1..])
    else if p[0] == '\\' then |p| > 1 && s != "" && s[0] == p[1] && Like(p[2..], s[1..])
    else s != "" && s[0] == p[0] && Like(p[1..], s[1..])
  }

  lemma LiteralOne(c: char, rest: string, s: string)
    ensures Like(EscapeChar(c) + rest, s) <==> s != "" && s[0] == c && Like(rest, s[1..])
  {
    assert (EscapeChar(c) + rest)[|EscapeChar(c)|..] == rest;
  }

  lemma {:induction false} LiteralThen(q: string, p: string, s: string)
    ensures Like(EscapeEach(q) + p, s) <==> q <= s && Like(p, s[|q|..])
    decreases |q|
  {
    if q == "" {
      assert EscapeEach(q) + p == p && s[0..] == s;
    } else {
      assert EscapeEach(q) + p == EscapeChar(q[0]) + (EscapeEach(q[1..]) + p);
      LiteralOne(q[0], EscapeEach(q[1..]) + p, s);
      if s != "" && s[0] == q[0] {
        LiteralThen(q[1..], p, s[1..]);
        PrefixCons(q, s);
      }
    }
  }

  lemma PrefixCons(q: string, s: string)
    requires q != "" && s != "" && q[0] == s[0]
    ensures q <= s <==> q[1..] <= s[1..]
    ensures q <= s ==> s[1..][|q| - 1..] == s[|q|..]
  {
    assert q == [q[0]] + q[1..] && s == [s[0]] + s[1..];
  }

  lemma {:induction false} AnyTail(s: string)
    ensures Like("%", s)
  {
    if s != "" {
      AnyTail(s[1..]);
    } else {
      assert "%"[1..] == "";
    }
  }

  lemma {:induction false} PercentThen(p: string, s: string)
    ensures Like("%" + p, s) <==> exists k :: 0 <= k <= |s| && Like(p, s[k..])
    decreases |s|
  {
    assert ("%" + p)[1..] == p && s[0..] == s;
    if s != "" {
      PercentThen(p, s[1..]);
      assert forall k :: 0 <= k <= |s| - 1 ==> s[1..][k..] == s[k + 1..];
      if k :| 1 <= k <= |s| && Like(p, s[k..]) {
        assert s[1..][k - 1..] == s[k..];
      }
    }
  }

  ghost predicate Contains(s: string, q: string) {
    exists k :: 0 <= k <= |s| && q <= s[k..]
  }

  // Escaped patterns are literal: bare, with a trailing '%' and between two '%'s they match exactly the
  // strings that equal, start with and contain the query.
  lemma EscapedIsLiteral(q: string, s: string)
    ensures Like(EscapeLike(q), s) <==> s == q
    ensures Like(EscapeLike(q) + "%", s) <==> q <= s
    ensures Like("%" + (EscapeLike(q) + "%"), s) <==> Contains(s, q)
  {
    EscapeIsPerChar(q);
    LiteralThen(q, "", s);
    assert EscapeEach(q) + "" == EscapeEach(q);
    PrefixPattern(q, s);
    PercentThen(EscapeEach(q) + "%", s);
    forall k | 0 <= k <= |s|
      ensures Like(EscapeEach(q) + "%", s[k..]) <==> q <= s[k..]
    {
      PrefixPattern(q, s[k..]);
    }
  }

  lemma PrefixPattern(q: string, s: string)
    ensures Like(EscapeEach(q) + "%", s) <==> q <= s
  {
    LiteralThen(q, "%", s);
    if q <= s {
      AnyTail(s[|q|..]);
    }
  }

  // ---------- case folding and the ranking ----------

  // Lower-casing, one character at a time. It neither moves nor makes a LIKE character.
  ghost predicate FoldsLetters(fold: char -> char) {
    forall c :: (IsMeta(c) ==> fold(c) == c) && (!IsMeta(c) ==> !IsMeta(fold(c)))
  }

  function Fold(fold: char -> char, s: string): string {
    seq(|s|, i requires 0 <= i < |s| => fold(s[i]))
  }

  // ILIKE folds the pattern and the string.
  predicate ILike(fold: char -> char, p: string, s: string) {
    Like(Fold(fold, p), Fold(fold, s))
  }

  lemma FoldConcat(fold: char -> char, a: string, b: string)
    ensures Fold(fold, a + b) == Fold(fold, a) + Fold(fold, b)
  {}

  lemma {:induction false} FoldEscaped(fold: char -> char, q: string)
    requires FoldsLetters(fold)
    ensures Fold(fold, EscapeEach(q)) == EscapeEach(Fold(fold, q))
  {
    if q != "" {
      FoldEscaped(fold, q[1..]);
      FoldConcat(fold, EscapeChar(q[0]), EscapeEach(q[1..]));
      assert Fold(fold, q)[1..] == Fold(fold, q[1..]);
      assert Fold(fold, EscapeChar(q[0])) == EscapeChar(fold(q[0])) by {
        assert FoldsLetters(fold) && IsMeta('\\');
      }
    }
  }

  datatype Entity = Entity(name: string, typ: string, description: string)

  // The WHERE clause and the ORDER BY case, over the escaped query.
  predicate Selected(fold: char -> char, e: Entity, qEsc: string, typ: string) {
    && (qEsc == "" || ILike(fold, "%" + (qEsc + "%"), e.name) || ILike(fold, "%" + (qEsc + "%"), e.description))
    && (typ == "" || e.typ == typ)
  }

  function Rank(fold: char -> char, e: Entity, qEsc: string): nat {
    if qEsc == "" then 4
    else if ILike(fold, qEsc, e.name) then 0
    else if ILike(fold, qEsc + "%", e.name) then 1
    else if ILike(fold, "%" + (qEsc + "%"), e.name) then 2
    else 3
  }

  // What the ranking means, without LIKE: how an entity matches a query.
  ghost predicate Matches(fold: char -> char, e: Entity, q: string, class': nat) {
    var n, f := Fold(fold, e.name), Fold(fold, q);
    match class'
    case 0 => n == f
    case 1 => f <= n
    case 2 => Contains(n, f)
    case 3 => Contains(Fold(fold, e.description), f)
    case _ => false
  }

  lemma FoldedPatterns(fold: char -> char, q: string, s: string)
    requires FoldsLetters(fold)
    ensures var (f, t) := (Fold(fold, q), Fold(fold, s));
      && (ILike(fold, EscapeLike(q), s) <==> t == f)
      && (ILike(fold, EscapeLike(q) + "%", s) <==> f <= t)
      && (ILike(fold, "%" + (EscapeLike(q) + "%"), s) <==> Contains(t, f))
  {
    EscapeIsPerChar(q);
    EscapeIsPerChar(Fold(fold, q));
    FoldEscaped(fold, q);
    FoldConcat(fold, EscapeLike(q), "%");
    FoldConcat(fold, "%", EscapeLike(q) + "%");
    assert Fold(fold, "%") == "%" by {
      assert IsMeta('%');
    }
    EscapedIsLiteral(Fold(fold, q), Fold(fold, s));
  }

  lemma EscapeEmpty(q: string)
    ensures EscapeLike(q) == "" <==> q == ""
  {
    EscapeIsPerChar(q);
  }

  // Search is exact up to case: a non-empty query selects an entity of the wanted type if and only if it matches
  // in some class, and the entity's rank is the strongest class it matches in.
  lemma RankIsStrongest(fold: char -> char, e: Entity, q: string, typ: string)
    requires FoldsLetters(fold) && q != ""
    ensures Selected(fold, e, EscapeLike(q), typ) <==>
      (typ == "" || e.typ == typ) && exists c: nat :: Matches(fold, e, q, c)
    ensures Selected(fold, e, EscapeLike(q), typ) ==>
      && Matches(fold, e, q, Rank(fold, e, EscapeLike(q)))
      && forall c: nat :: Matches(fold, e, q, c) ==> Rank(fold, e, EscapeLike(q)) <= c
  {
    EscapeEmpty(q);
    FoldedPatterns(fold, q, e.name);
    FoldedPatterns(fold, q, e.description);
    WeakerToo(Fold(fold, e.name), Fold(fold, q));
    if Selected(fold, e, EscapeLike(q), typ) {
      assert Matches(fold, e, q, Rank(fold, e, EscapeLike(q)));
    }
    forall c: nat | Matches(fold, e, q, c)
      ensures Matches(fold, e, q, 2) || Matches(fold, e, q, 3)
    {}
  }

  lemma WeakerToo(n: string, f: string)
    ensures n == f ==> f <= n
    ensures f <= n ==> Contains(n, f)
  {
    assert n[0..] == n;
  }

  // An empty query selects by type alone and ranks everything alike.
  lemma EmptyQuery(fold: char -> char, e: Entity, typ: string)
    ensures Selected(fold, e, EscapeLike(""), typ) <==> (typ == "" || e.typ == typ)
    ensures Rank(fold, e, EscapeLike("")) == 4
  {
    EscapeEmpty("");
  }
}
