/**
  The order Rust gives to strings: byte-lexicographic, which on UTF-8 agrees with the
  lexicographic order of the code points a Dafny string holds.
 */
module Order {

  /** Strict lexicographic order. */
  predicate Less(a: string, b: string) {
    |b| != 0 && (|a| == 0 || a[0] < b[0] || (a[0] == b[0] && Less(a[1..], b[1..])))
  }

  lemma {:induction false} Irreflexive(a: string)
    ensures !Less(a, a)
  {
    if a != [] {
      Irreflexive(a[1..]);
    }
  }

  lemma {:induction false} Connected(a: string, b: string)
    ensures Less(a, b) || a == b || Less(b, a)
  {
    if a != [] && b != [] && a[0] == b[0] {
      Connected(a[1..], b[1..]);
      assert a == [a[0]] + a[1..] && b == [b[0]] + b[1..];
    }
  }

  lemma {:induction false} Transitive(a: string, b: string, c: string)
    requires Less(a, b) && Less(b, c)
    ensures Less(a, c)
  {
    if a != [] && a[0] == b[0] == c[0] {
      Transitive(a[1..], b[1..], c[1..]);
    }
  }

  lemma {:induction false} OneWay(a: string, b: string)
    requires Less(a, b)
    ensures !Less(b, a)
  {
    if a != [] && a[0] == b[0] {
      OneWay(a[1..], b[1..]);
    }
  }

  /** Lexicographic order is a strict total order. */
  lemma StringOrder()
    ensures forall a: string :: !Less(a, a)
    ensures forall a: string, b: string :: Less(a, b) || a == b || Less(b, a)
    ensures forall a: string, b: string, c: string :: Less(a, b) && Less(b, c) ==> Less(a, c)
  {
    forall a: string ensures !Less(a, a) { Irreflexive(a); }
    forall a: string, b: string ensures Less(a, b) || a == b || Less(b, a) { Connected(a, b); }
    forall a: string, b: string, c: string | Less(a, b) && Less(b, c) ensures Less(a, c) {
      Transitive(a, b, c);
    }
  }

  /** A nonempty finite set of strings has a least element. */
  lemma {:induction false} LeastExists(s: set<string>)
    requires s != {}
    ensures exists m :: m in s && forall x :: x in s ==> !Less(x, m)
  {
    var a :| a in s;
    if s == {a} {
      Irreflexive(a);
      assert a in s && forall x :: x in s ==> !Less(x, a);
    } else {
      var rest := s - {a};
      LeastExists(rest);
      var m :| m in rest && forall x :: x in rest ==> !Less(x, m);
      StringOrder();
      if Less(a, m) {
        assert a in s && forall x :: x in s ==> !Less(x, a);
      } else {
        assert m in s && forall x :: x in s ==> !Less(x, m);
      }
    }
  }

  function Least(s: set<string>): (m: string)
    requires s != {}
    ensures m in s
    ensures forall x :: x in s ==> !Less(x, m)
  {
    LeastExists(s);
    StringOrder();
    var m :| m in s && forall x :: x in s ==> !Less(x, m);
    m
  }

  /** The iteration order of a `BTreeMap` or `BTreeSet` with these keys. */
  function Sorted(s: set<string>): (r: seq<string>)
    ensures |r| == |s|
    ensures forall x :: x in r <==> x in s
    ensures forall i, j :: 0 <= i < j < |r| ==> Less(r[i], r[j])
    decreases s
  {
    if s == {} then []
    else
      var m := Least(s);
      assert s == {m} + (s - {m});
      StringOrder();
      [m] + Sorted(s - {m})
  }

  /** The pieces of a string between separators; never none. */
  function Split(s: string, separator: char): (r: seq<string>)
    ensures |r| > 0
  {
    if s == "" then [""]
    else if s[0] == separator then [""] + Split(s[1..], separator)
    else
      var rest := Split(s[1..], separator);
      [[s[0]] + rest[0]] + rest[1..]
  }

  /** Pieces with separators between them. */
  function Join(pieces: seq<string>, separator: char): string {
    if pieces == [] then ""
    else if |pieces| == 1 then pieces[0]
    else pieces[0] + [separator] + Join(pieces[1..], separator)
  }

  /** Splitting takes a string apart at all its separators: joining the pieces gives it back, and none holds one. */
  lemma {:induction false} SplitJoins(s: string, separator: char)
    ensures Join(Split(s, separator), separator) == s
    ensures forall i :: 0 <= i < |Split(s, separator)| ==> separator !in Split(s, separator)[i]
  {
    if s != "" {
      SplitJoins(s[1..], separator);
      var rest, all := Split(s[1..], separator), Split(s, separator);
      if s[0] == separator {
        assert all[1..] == rest;
        assert Join(all, separator) == "" + [separator] + Join(rest, separator);
      } else {
        assert all[1..] == rest[1..];
        if |rest| == 1 {
          assert Join(all, separator) == all[0];
        } else {
          assert Join(all, separator) == [s[0]] + (rest[0] + [separator] + Join(rest[1..], separator));
        }
      }
      assert s == [s[0]] + s[1..];
    }
  }

  lemma {:induction false} SplitPiece(a: string, separator: char, b: string)
    requires separator !in a
    ensures Split(a + [separator] + b, separator) == [a] + Split(b, separator)
  {
    var s := a + [separator] + b;
    if a == "" {
      assert s[1..] == b;
    } else {
      assert s[0] == a[0] && s[1..] == a[1..] + [separator] + b;
      SplitPiece(a[1..], separator, b);
      var rest := Split(s[1..], separator);
      assert rest[0] == a[1..] && rest[1..] == Split(b, separator);
      assert [a[0]] + a[1..] == a;
    }
  }

  lemma {:induction false} SplitNone(a: string, separator: char)
    requires separator !in a
    ensures Split(a, separator) == [a]
  {
    if a != "" {
      SplitNone(a[1..], separator);
      assert [a[0]] + a[1..] == a;
    }
  }

  /** Joined pieces that hold no separator are found again by splitting. */
  lemma {:induction false} JoinSplits(pieces: seq<string>, separator: char)
    requires pieces != [] && forall i :: 0 <= i < |pieces| ==> separator !in pieces[i]
    ensures Split(Join(pieces, separator), separator) == pieces
  {
    if |pieces| == 1 {
      SplitNone(pieces[0], separator);
    } else {
      JoinSplits(pieces[1..], separator);
      SplitPiece(pieces[0], separator, Join(pieces[1..], separator));
    }
  }
}
