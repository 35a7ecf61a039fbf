/** Sets of strings in the order Python sorts them. */
module SortedStrings {
  import opened Options

  predicate Before(s: string, t: string) {
    t != [] && (s == [] || s[0] < t[0] || (s[0] == t[0] && Before(s[1..], t[1..])))
  }

  lemma {:induction false} BeforeIsTotal(s: string, t: string)
    ensures Before(s, t) || Before(t, s) || s == t
    ensures !(Before(s, t) && Before(t, s)) && !Before(s, s)
  {
    if s != [] && t != [] {
      BeforeIsTotal(s[1..], t[1..]);
      if s[0] == t[0] && s[1..] == t[1..] {
        assert s == [s[0]] + s[1..] && t == [t[0]] + t[1..];
      }
    }
    if s != [] {
      BeforeIsTotal(s[1..], s[1..]);
    }
  }

  lemma {:induction false} BeforeIsTransitive(s: string, t: string, u: string)
    requires Before(s, t) && Before(t, u)
    ensures Before(s, u)
  {
    if s != [] && s[0] == t[0] && t[0] == u[0] {
      BeforeIsTransitive(s[1..], t[1..], u[1..]);
    }
  }

  ghost predicate IsFirst(m: string, s: set<string>) {
    m in s && forall t | t in s && t != m :: Before(m, t)
  }

  lemma {:induction false} FirstExists(s: set<string>)
    requires s != {}
    ensures exists m :: IsFirst(m, s)
  {
    var x := Pick(s);
    var rest := s - {x};
    assert forall t | t in s :: t == x || t in rest;
    if rest == {} {
      assert IsFirst(x, s);
    } else {
      FirstExists(rest);
      var k :| IsFirst(k, rest);
      BeforeIsTotal(k, x);
      if Before(k, x) {
        assert IsFirst(k, s);
      } else {
        forall t | t in rest && t != k ensures Before(x, t) {
          BeforeIsTransitive(x, k, t);
        }
        assert IsFirst(x, s);
      }
    }
  }

  /** The strings of a set, sorted. */
  ghost function Sort(s: set<string>): seq<string> {
    if s == {} then []
    else
      FirstExists(s);
      var m :| IsFirst(m, s);
      [m] + Sort(s - {m})
  }

  lemma {:induction false} SortLists(s: set<string>)
    ensures forall i | 0 <= i < |Sort(s)| :: Sort(s)[i] in s
    ensures forall k | k in s :: k in Sort(s)
    ensures forall i, j | 0 <= i < j < |Sort(s)| :: Before(Sort(s)[i], Sort(s)[j])
  {
    if s != {} {
      FirstExists(s);
      var m := Sort(s)[0];
      assert IsFirst(m, s) && Sort(s) == [m] + Sort(s - {m});
      SortLists(s - {m});
    }
  }

  method SortedKeys(s: set<string>) returns (r: seq<string>)
    ensures r == Sort(s)
  {
    r := [];
    var rest := s;
    while rest != {}
      invariant r + Sort(rest) == Sort(s)
      decreases rest
    {
      FirstExists(rest);
      var m :| m in rest && forall t | t in rest && t != m :: Before(m, t);
      ghost var n := Sort(rest)[0];
      assert IsFirst(n, rest) && Sort(rest) == [n] + Sort(rest - {n});
      BeforeIsTotal(m, n);
      assert r + ([m] + Sort(rest - {m})) == (r + [m]) + Sort(rest - {m});
      r := r + [m];
      rest := rest - {m};
    }
    assert r + [] == r;
  }
}
