// Joining strings with a separator character and splitting them again.
module SplitJoin {

  // strings.Join with a one-character separator.
  function Join(parts: seq<string>, sep: char): string {
    if parts == [] then "" else if |parts| == 1 then parts[0] else parts[0] + [sep] + Join(parts[1..], sep)
  }

  // strings.Split and string_to_array on a one-character separator.
  function Split(s: string, sep: char): (parts: seq<string>)
    ensures parts != [] && forall p :: p in parts ==> sep !in p
  {
    if s == [] then [[]]
    else
      var rest := Split(s[1..], sep);
      if s[0] == sep then [[]] + rest else [[s[0]] + rest[0]] + rest[1..]
  }

  lemma {:induction false} SplitPlain(s: string, sep: char)
    requires sep !in s
    ensures Split(s, sep) == [s]
  {
    if s != [] {
      SplitPlain(s[1..], sep);
      assert [s[0]] + s[1..] == s;
    }
  }

  lemma {:induction false} SplitHead(a: string, s: string, sep: char)
    requires sep !in a
    ensures Split(a + [sep] + s, sep) == [a] + Split(s, sep)
  {
    if a == [] {
      assert ([] + [sep] + s)[1..] == s;
    } else {
      assert (a + [sep] + s)[1..] == a[1..] + [sep] + s;
      SplitHead(a[1..], s, sep);
      assert [a[0]] + a[1..] == a && Split(a + [sep] + s, sep) == [[a[0]] + a[1..]] + Split(s, sep);
    }
  }

  lemma {:induction false} SplitConcat(a: string, s: string, sep: char)
    ensures Split(a + [sep] + s, sep) == Split(a, sep) + Split(s, sep)
  {
    if a == [] {
      assert ([] + [sep] + s)[1..] == s;
    } else {
      assert (a + [sep] + s)[1..] == a[1..] + [sep] + s;
      SplitConcat(a[1..], s, sep);
    }
  }

  // The pieces of a joined list are the pieces of its parts; the empty list has the one empty piece.
  lemma {:induction false} PiecesOfJoin(parts: seq<string>, sep: char, piece: string)
    ensures parts != [] ==>
      (piece in Split(Join(parts, sep), sep) <==> exists i :: 0 <= i < |parts| && piece in Split(parts[i], sep))
    ensures parts == [] ==> (piece in Split(Join(parts, sep), sep) <==> piece == "")
  {
    if |parts| > 1 {
      PiecesOfJoin(parts[1..], sep, piece);
      SplitConcat(parts[0], Join(parts[1..], sep), sep);
      if i :| 0 <= i < |parts| && piece in Split(parts[i], sep) {
        assert i > 0 ==> parts[1..][i - 1] == parts[i];
      }
    }
  }

  // Splitting what was joined gives the parts back if and only if there is a part
  // and none contains the separator.
  lemma {:induction false} SplitOfJoin(parts: seq<string>, sep: char)
    ensures Split(Join(parts, sep), sep) == parts <==> parts != [] && forall p :: p in parts ==> sep !in p
  {
    if parts != [] && forall p :: p in parts ==> sep !in p {
      if |parts| == 1 {
        SplitPlain(parts[0], sep);
      } else {
        assert forall p :: p in parts[1..] ==> p in parts;
        SplitOfJoin(parts[1..], sep);
        SplitHead(parts[0], Join(parts[1..], sep), sep);
      }
    }
  }
}
