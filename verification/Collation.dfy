/** SQLite's binary collation: how the database compares texts. */
module Collation {

  predicate TextLess(s: string, t: string) {
    t != "" && (s == "" || s[0] < t[0] || (s[0] == t[0] && TextLess(s[1..], t[1..])))
  }

  predicate TextLessEq(s: string, t: string) {
    s == t || TextLess(s, t)
  }

  lemma {:induction false} CommonPrefix(p: string, s: string, t: string)
    ensures TextLess(p + s, p + t) <==> TextLess(s, t)
  {
    if p == "" {
      assert p + s == s && p + t == t;
    } else {
      CommonPrefix(p[1..], s, t);
      assert (p + s)[1..] == p[1..] + s && (p + t)[1..] == p[1..] + t;
    }
  }

  lemma {:induction false} Asymmetric(s: string, t: string)
    ensures !(TextLess(s, t) && TextLess(t, s))
  {
    if s != "" && t != "" {
      Asymmetric(s[1..], t[1..]);
    }
  }

  lemma {:induction false} Transitive(s: string, t: string, u: string)
    requires TextLess(s, t) && TextLess(t, u)
    ensures TextLess(s, u)
  {
    if s != "" && s[0] == t[0] == u[0] {
      Transitive(s[1..], t[1..], u[1..]);
    }
  }

  lemma {:induction false} Total(s: string, t: string)
    ensures TextLess(s, t) || s == t || TextLess(t, s)
  {
    if s != "" && t != "" && s[0] == t[0] {
      Total(s[1..], t[1..]);
      assert s[1..] == t[1..] ==> s == [s[0]] + s[1..] && t == [t[0]] + t[1..];
    }
  }

  // ----- the first of a set of texts -----

  ghost predicate IsFirst(texts: set<string>, x: string) {
    x in texts && forall y :: y in texts ==> TextLessEq(x, y)
  }

  lemma {:induction false} FirstExists(texts: set<string>)
    requires texts != {}
    ensures exists x :: IsFirst(texts, x)
  {
    var y :| y in texts;
    if texts == {y} {
      assert IsFirst(texts, y);
    } else {
      FirstExists(texts - {y});
      var z :| IsFirst(texts - {y}, z);
      Total(y, z);
      var x := if TextLess(y, z) then y else z;
      forall w | w in texts ensures TextLessEq(x, w) {
        if w != y {
          assert w in texts - {y};
          if x == y && z != w {
            Transitive(y, z, w);
          }
        }
      }
      assert IsFirst(texts, x);
    }
  }

  ghost function First(texts: set<string>): (x: string)
    requires texts != {}
    ensures IsFirst(texts, x)
  {
    FirstExists(texts);
    var x :| IsFirst(texts, x);
    x
  }

  lemma FirstUnique(texts: set<string>, x: string, y: string)
    requires IsFirst(texts, x) && IsFirst(texts, y)
    ensures x == y
  {
    Asymmetric(x, y);
  }

  /** The head of an ordered listing. */
  method FindFirst(texts: set<string>) returns (x: string)
    requires texts != {}
    ensures x == First(texts)
  {
    x :| x in texts;
    var rest := texts - {x};
    while rest != {}
      invariant rest <= texts && x in texts - rest
      invariant forall y :: y in texts - rest ==> TextLessEq(x, y)
    {
      var y :| y in rest;
      ghost var before := x;
      Total(x, y);
      if TextLess(y, x) {
        forall w | w in texts - rest ensures TextLessEq(y, w) {
          if w != before {
            Transitive(y, before, w);
          }
        }
        x := y;
      }
      rest := rest - {y};
    }
    FirstUnique(texts, x, First(texts));
  }
}
