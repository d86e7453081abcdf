/** Splitting and joining text at a separator. */
module Text {

  /** The parts of `s` between separators: never an empty list. */
  function Split(s: string, sep: char): (parts: seq<string>)
    ensures parts != []
    ensures forall i :: 0 <= i < |parts| ==> sep !in parts[i]
  {
    if s == [] then [""]
    else
      var rest := Split(s[1..], sep);
      if s[0] == sep then [""] + rest else [[s[0]] + rest[0]] + rest[1..]
  }

  function Join(parts: seq<string>, sep: char): string {
    if parts == [] then ""
    else if |parts| == 1 then parts[0]
    else parts[0] + [sep] + Join(parts[1..], sep)
  }

  /** Splitting after a prefix without separators. */
  lemma {:induction false} SplitAfter(a: string, b: string, sep: char)
    requires sep !in a
    ensures Split(a + [sep] + b, sep) == [a] + Split(b, sep)
    ensures Split(a, sep) == [a]
  {
    if a == [] {
      assert a + [sep] + b == [sep] + b && ([sep] + b)[1..] == b;
    } else {
      SplitAfter(a[1..], b, sep);
      assert (a + [sep] + b)[1..] == a[1..] + [sep] + b;
      assert [a[0]] + a[1..] == a;
    }
  }

  /** Parts without separators survive joining and splitting. */
  lemma {:induction false} SplitJoin(parts: seq<string>, sep: char)
    requires parts != [] && forall i :: 0 <= i < |parts| ==> sep !in parts[i]
    ensures Split(Join(parts, sep), sep) == parts
  {
    if |parts| == 1 {
      SplitAfter(parts[0], "", sep);
    } else {
      SplitJoin(parts[1..], sep);
      SplitAfter(parts[0], Join(parts[1..], sep), sep);
    }
  }

  /** Splitting loses nothing. */
  lemma {:induction false} JoinSplit(s: string, sep: char)
    ensures Join(Split(s, sep), sep) == s
  {
    if s != [] {
      JoinSplit(s[1..], sep);
      var rest := Split(s[1..], sep);
      if s[0] == sep {
        assert ([""] + rest)[1..] == rest;
        assert "" + [sep] + s[1..] == s;
      } else {
        var first := [s[0]] + rest[0];
        assert ([first] + rest[1..])[1..] == rest[1..];
        assert [s[0]] + s[1..] == s;
        if |rest| > 1 {
          assert [s[0]] + (rest[0] + [sep] + Join(rest[1..], sep)) == first + [sep] + Join(rest[1..], sep);
        }
      }
    }
  }

  lemma {:induction false} JoinConcat(xs: seq<string>, ys: seq<string>, sep: char)
    requires xs != [] && ys != []
    ensures Join(xs + ys, sep) == Join(xs, sep) + [sep] + Join(ys, sep)
  {
    assert (xs + ys)[1..] == xs[1..] + ys;
    if |xs| == 1 {
      assert xs[1..] + ys == ys;
    } else {
      JoinConcat(xs[1..], ys, sep);
    }
  }

  /** A separator splits wherever it stands. */
  lemma SplitConcat(a: string, b: string, sep: char)
    ensures Split(a + [sep] + b, sep) == Split(a, sep) + Split(b, sep)
  {
    JoinSplit(a, sep);
    JoinSplit(b, sep);
    JoinConcat(Split(a, sep), Split(b, sep), sep);
    SplitJoin(Split(a, sep) + Split(b, sep), sep);
  }
}
