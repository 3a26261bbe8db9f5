/**
 * Names of composite states: generateStateName writes "{", the member
 * names in ascending order separated by ",", and "}". A comma is written
 * before a member only when something follows the "{" already, so a member
 * named "" contributes nothing at all.
 */
module StateNames {
  import opened StringOrder

  /** What generateStateName's loop has written after the "{" once it has appended the names xs. */
  function NameBody(xs: seq<string>): string
  {
    if xs == [] then ""
    else
      var body := NameBody(xs[..|xs| - 1]);
      (if |body| > 0 then body + "," else body) + xs[|xs| - 1]
  }

  lemma NameBodySnoc(xs: seq<string>, x: string)
    ensures NameBody(xs + [x]) == (if |NameBody(xs)| > 0 then NameBody(xs) + "," else NameBody(xs)) + x
  {
    assert (xs + [x])[..|xs|] == xs;
  }

  /** One round of generateStateName's loop: append the least pending name. */
  lemma NamingStep(written: seq<string>, pending: set<string>, state: string)
    requires IsLeast(state, pending)
    ensures written + Ascending(pending) == (written + [state]) + Ascending(pending - {state})
    ensures NameBody(written + [state])
      == (if |NameBody(written)| > 0 then NameBody(written) + "," else NameBody(written)) + state
  {
    AscendingFirst(pending, state);
    NameBodySnoc(written, state);
  }

  /** The name generateStateName gives the set S. */
  ghost function StateName(S: set<string>): string
  {
    "{" + NameBody(Ascending(S)) + "}"
  }

  /** The names xs separated by single commas. */
  function Join(xs: seq<string>): (r: string)
  {
    if xs == [] then ""
    else if |xs| == 1 then xs[0]
    else Join(xs[..|xs| - 1]) + "," + xs[|xs| - 1]
  }

  /** A name the composite naming can tell apart: non-empty and without commas. */
  predicate Plain(x: string)
  {
    x != "" && ',' !in x
  }

  lemma {:induction false} JoinNonEmpty(xs: seq<string>)
    requires xs != [] && forall i :: 0 <= i < |xs| ==> Plain(xs[i])
    ensures Join(xs) != ""
  {
    if |xs| > 1 {
      JoinNonEmpty(xs[..|xs| - 1]);
    }
  }

  /** Without empty names the loop writes exactly the comma-separated list. */
  lemma {:induction false} NameBodyIsJoin(xs: seq<string>)
    requires forall i :: 0 <= i < |xs| ==> xs[i] != ""
    ensures NameBody(xs) == Join(xs)
  {
    if xs != [] {
      var init := xs[..|xs| - 1];
      NameBodyIsJoin(init);
      if |xs| > 1 {
        assert NameBody(init) != "" by {
          NameBodyNonEmpty(init);
        }
      }
    }
  }

  lemma NameBodyNonEmpty(xs: seq<string>)
    requires xs != [] && forall i :: 0 <= i < |xs| ==> xs[i] != ""
    ensures NameBody(xs) != ""
  {
  }

  /** A leading empty name leaves no trace: no comma is written after it. */
  lemma {:induction false} NameBodySkipsEmpty(ys: seq<string>)
    ensures NameBody([""] + ys) == NameBody(ys)
  {
    if ys != [] {
      var init := ys[..|ys| - 1];
      assert ([""] + ys)[..|ys|] == [""] + init;
      NameBodySkipsEmpty(init);
    }
  }

  /**
   * The name of S is "{", the elements of S other than "" in ascending
   * order separated by commas, and "}". So the empty set is named "{}".
   */
  lemma StateNameIsJoin(S: set<string>)
    ensures StateName(S) == "{" + Join(Ascending(S - {""})) + "}"
  {
    var T := S - {""};
    var xs := Ascending(T);
    AscendingElements(T);
    assert forall i :: 0 <= i < |xs| ==> xs[i] != "" by {
      forall i | 0 <= i < |xs| ensures xs[i] != "" {
        assert xs[i] in T;
      }
    }
    NameBodyIsJoin(xs);
    if "" in S {
      AscendingEmptyFirst(S);
      NameBodySkipsEmpty(xs);
    } else {
      assert T == S;
    }
  }

  /** The empty state name is dropped: {""} and {} receive the same name. */
  lemma EmptyMemberInvisible(S: set<string>)
    ensures StateName(S + {""}) == StateName(S - {""})
  {
    StateNameIsJoin(S + {""});
    StateNameIsJoin(S - {""});
    assert (S + {""}) - {""} == (S - {""}) - {""};
  }

  /** In a comma-joined string, what follows the last comma is the last name. */
  lemma LastSegment(a: string, x: string, b: string, y: string)
    requires a + "," + x == b + "," + y
    requires ',' !in x && ',' !in y
    ensures a == b && x == y
  {
    var s := a + "," + x;
    JoinedAt(a, x, |s| - 1 - |y|);
    JoinedAt(b, y, |s| - 1 - |x|);
    if |x| != |y| {
      assert false;
    }
    assert a == s[..|a|] && b == s[..|b|];
    assert x == s[|a| + 1..] && y == s[|b| + 1..];
  }

  lemma JoinedAt(a: string, x: string, k: int)
    ensures 0 <= k < |a + "," + x| ==> (a + "," + x)[k] == if k < |a| then a[k] else if k == |a| then ',' else x[k - |a| - 1]
  {
  }

  lemma {:induction false} JoinHasComma(xs: seq<string>)
    requires |xs| > 1
    ensures ',' in Join(xs)
  {
    var j := Join(xs[..|xs| - 1]);
    assert Join(xs)[|j|] == ',';
  }

  /** Lists of plain names are told apart by their joined form. */
  lemma {:induction false} JoinInjective(xs: seq<string>, ys: seq<string>)
    requires forall i :: 0 <= i < |xs| ==> Plain(xs[i])
    requires forall i :: 0 <= i < |ys| ==> Plain(ys[i])
    requires Join(xs) == Join(ys)
    ensures xs == ys
    decreases |xs|
  {
    if xs == [] || ys == [] {
      if xs != [] {
        JoinNonEmpty(xs);
      } else if ys != [] {
        JoinNonEmpty(ys);
      }
    } else if |xs| == 1 || |ys| == 1 {
      if |xs| > 1 {
        JoinHasComma(xs);
      } else if |ys| > 1 {
        JoinHasComma(ys);
      }
    } else {
      var xi, yi := xs[..|xs| - 1], ys[..|ys| - 1];
      LastSegment(Join(xi), xs[|xs| - 1], Join(yi), ys[|ys| - 1]);
      JoinInjective(xi, yi);
      assert xs == xi + [xs[|xs| - 1]] && ys == yi + [ys[|ys| - 1]];
    }
  }

  lemma Unbracket(p: string, q: string)
    requires "{" + p + "}" == "{" + q + "}"
    ensures p == q
  {
    var a, b := "{" + p + "}", "{" + q + "}";
    assert p == a[1..|a| - 1] && q == b[1..|b| - 1];
  }

  lemma PlainListing(S: set<string>)
    requires forall x | x in S :: Plain(x)
    ensures forall i :: 0 <= i < |Ascending(S)| ==> Plain(Ascending(S)[i])
  {
    var xs := Ascending(S);
    AscendingElements(S);
    forall i | 0 <= i < |xs| ensures Plain(xs[i]) {
      assert xs[i] in S;
    }
  }

  /** Sets of plain state names receive different names. */
  lemma StateNameInjective(S: set<string>, T: set<string>)
    requires forall x | x in S :: Plain(x)
    requires forall x | x in T :: Plain(x)
    requires StateName(S) == StateName(T)
    ensures S == T
  {
    StateNameIsJoin(S);
    StateNameIsJoin(T);
    assert S - {""} == S && T - {""} == T;
    Unbracket(Join(Ascending(S)), Join(Ascending(T)));
    PlainListing(S);
    PlainListing(T);
    JoinInjective(Ascending(S), Ascending(T));
    AscendingInjective(S, T);
  }
}
