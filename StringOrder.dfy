/**
 * The ordering std::set<std::string> keeps its elements in (std::string's
 * operator<: character by character, a proper prefix first), and the listing
 * of a finite set of strings in that order, which is how such a set is
 * iterated.
 */
module StringOrder {

  /** a comes strictly before b lexicographically. */
  predicate Less(a: string, b: string)
  {
    if a == [] then b != []
    else if b == [] then false
    else a[0] < b[0] || (a[0] == b[0] && Less(a[1..], b[1..]))
  }

  lemma {:induction false} LessIrreflexive(a: string)
    ensures !Less(a, a)
  {
    if a != [] {
      LessIrreflexive(a[1..]);
    }
  }

  lemma {:induction false} LessAsymmetric(a: string, b: string)
    requires Less(a, b)
    ensures !Less(b, a)
  {
    if a != [] && b != [] && a[0] == b[0] {
      LessAsymmetric(a[1..], b[1..]);
    }
  }

  lemma {:induction false} LessTransitive(a: string, b: string, c: string)
    requires Less(a, b) && Less(b, c)
    ensures Less(a, c)
  {
    if a != [] && a[0] == b[0] && b[0] == c[0] {
      LessTransitive(a[1..], b[1..], c[1..]);
    }
  }

  lemma {:induction false} LessTotal(a: string, b: string)
    requires a != b
    ensures Less(a, b) || Less(b, a)
  {
    if a != [] && b != [] && a[0] == b[0] {
      assert a == [a[0]] + a[1..] && b == [b[0]] + b[1..];
      LessTotal(a[1..], b[1..]);
    }
  }

  /** The empty string comes before every other string. */
  lemma EmptyFirst(b: string)
    requires b != []
    ensures Less([], b)
  {
  }

  /** m is the least element of S. */
  predicate IsLeast(m: string, S: set<string>)
  {
    m in S && forall x | x in S :: x == m || Less(m, x)
  }

  lemma {:induction false} LeastExists(S: set<string>)
    requires S != {}
    ensures exists m :: IsLeast(m, S)
    decreases |S|
  {
    var y :| y in S;
    if S == {y} {
      assert IsLeast(y, S);
    } else {
      var S' := S - {y};
      LeastExists(S');
      var m :| IsLeast(m, S');
      if Less(y, m) {
        forall x | x in S ensures x == y || Less(y, x) {
          if x != y && x != m {
            LessTransitive(y, m, x);
          }
        }
        assert IsLeast(y, S);
      } else {
        LessTotal(y, m);
        assert IsLeast(m, S);
      }
    }
  }

  lemma LeastUnique(a: string, b: string, S: set<string>)
    requires IsLeast(a, S) && IsLeast(b, S)
    ensures a == b
  {
    if a != b {
      LessAsymmetric(a, b);
    }
  }

  /** The least element of a non-empty set of strings. */
  ghost function Least(S: set<string>): (m: string)
    requires S != {}
    ensures IsLeast(m, S)
  {
    LeastExists(S);
    var m :| IsLeast(m, S); m
  }

  /** The elements of S in the order a std::set iterates them: ascending, each once. */
  ghost function Ascending(S: set<string>): (r: seq<string>)
    decreases |S|
  {
    if S == {} then []
    else
      var m := Least(S);
      [m] + Ascending(S - {m})
  }

  /** The listing holds exactly the elements of S, as many as S has. */
  lemma {:induction false} AscendingElements(S: set<string>)
    ensures |Ascending(S)| == |S|
    ensures forall x :: x in Ascending(S) <==> x in S
    decreases |S|
  {
    if S != {} {
      var m := Least(S);
      AscendingElements(S - {m});
    }
  }

  /** The listing is strictly ascending, so no element is listed twice. */
  lemma {:induction false} AscendingSorted(S: set<string>)
    ensures forall i, j :: 0 <= i < j < |Ascending(S)| ==> Less(Ascending(S)[i], Ascending(S)[j])
    decreases |S|
  {
    if S != {} {
      var m := Least(S);
      var rest := Ascending(S - {m});
      AscendingSorted(S - {m});
      AscendingElements(S - {m});
      assert Ascending(S) == [m] + rest;
      forall j | 0 <= j < |rest| ensures Less(m, rest[j]) {
        assert rest[j] in S - {m};
      }
    }
  }

  /** The listing starts with the least element, followed by the listing of the rest. */
  lemma AscendingFirst(S: set<string>, m: string)
    requires IsLeast(m, S)
    ensures Ascending(S) == [m] + Ascending(S - {m})
  {
    LeastUnique(m, Least(S), S);
  }

  /** Two sets are listed alike only if they are equal. */
  lemma AscendingInjective(S: set<string>, T: set<string>)
    requires Ascending(S) == Ascending(T)
    ensures S == T
  {
    AscendingElements(S);
    AscendingElements(T);
    forall x ensures x in S <==> x in T {
      assert x in Ascending(S) <==> x in S;
    }
  }

  /** The empty string, when present, is listed first. */
  lemma AscendingEmptyFirst(S: set<string>)
    requires "" in S
    ensures Ascending(S) == [""] + Ascending(S - {""})
  {
    forall x | x in S ensures x == "" || Less("", x) {
      if x != "" {
        EmptyFirst(x);
      }
    }
    LeastUnique(Least(S), "", S);
  }

  /** The least character of a non-empty set of characters: how a std::set<char> is iterated. */
  lemma {:induction false} LeastCharExists(A: set<char>)
    requires A != {}
    ensures exists c :: c in A && forall d | d in A :: c <= d
    decreases |A|
  {
    var y :| y in A;
    if A == {y} {
      assert forall d | d in A :: y <= d;
    } else {
      LeastCharExists(A - {y});
      var c :| c in A - {y} && forall d | d in A - {y} :: c <= d;
      var m := if y < c then y else c;
      forall d | d in A ensures m <= d {
        if d != y {
          assert d in A - {y};
        }
      }
      assert m in A;
    }
  }
}
