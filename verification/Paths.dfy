/**
 Slash-separated bucket paths: how RotateDataKey's collector builds them and how
 navigateBucket takes them apart again (bytes.Split).
 */
module Paths {

  type Name = string

  /** The collector's path: parent path, a slash, the child's name. */
  function Join(p: seq<Name>): (r: Name)
    requires p != []
  {
    if |p| == 1 then p[0] else Join(p[..|p| - 1]) + "/" + p[|p| - 1]
  }

  /** bytes.Split(s, "/"). */
  function Split(s: Name): (r: seq<Name>)
    ensures r != []
    ensures SlashFree(r)
  {
    if s == "" then [""]
    else
      var rest := Split(s[1..]);
      if s[0] == '/' then [""] + rest else [[s[0]] + rest[0]] + rest[1..]
  }

  predicate SlashFree(p: seq<Name>)
  {
    forall n :: n in p ==> '/' !in n
  }

  lemma {:induction false} SplitWhole(n: Name)
    requires '/' !in n
    ensures Split(n) == [n]
  {
    if n != "" {
      assert '/' !in n[1..];
      SplitWhole(n[1..]);
      assert [n[0]] + n[1..] == n;
    }
  }

  lemma {:induction false} SplitLast(a: Name, n: Name)
    requires '/' !in n
    ensures Split(a + "/" + n) == Split(a) + [n]
  {
    var s := a + "/" + n;
    if a == "" {
      assert s[1..] == n;
      SplitWhole(n);
    } else {
      assert s[1..] == a[1..] + "/" + n;
      SplitLast(a[1..], n);
    }
  }

  /** Splitting a joined path gives the path back exactly when no name on it has a slash. */
  lemma {:induction false} SplitJoin(p: seq<Name>)
    requires p != []
    ensures Split(Join(p)) == p <==> SlashFree(p)
  {
    if SlashFree(p) {
      if |p| == 1 {
        SplitWhole(p[0]);
        assert p == [p[0]];
      } else {
        var init, last := p[..|p| - 1], p[|p| - 1];
        assert SlashFree(init);
        SplitJoin(init);
        SplitLast(Join(init), last);
        assert p == init + [last];
      }
    }
  }

  lemma {:induction false} JoinCons(a: Name, q: seq<Name>)
    requires q != []
    ensures Join([a] + q) == a + "/" + Join(q)
  {
    var p := [a] + q;
    if |q| == 1 {
      assert p[..1] == [a];
    } else {
      assert p[..|p| - 1] == [a] + q[..|q| - 1];
      JoinCons(a, q[..|q| - 1]);
    }
  }

  lemma JoinHeads(a: Name, q: seq<Name>)
    requires q != []
    ensures Join([a + q[0]] + q[1..]) == a + Join(q)
  {
    if |q| > 1 {
      JoinCons(a + q[0], q[1..]);
      JoinCons(q[0], q[1..]);
      assert [q[0]] + q[1..] == q;
    }
  }

  /** Joining a split path gives the string back, whatever it is. */
  lemma {:induction false} JoinSplit(s: Name)
    ensures Join(Split(s)) == s
  {
    if s != "" {
      var rest := Split(s[1..]);
      JoinSplit(s[1..]);
      assert [s[0]] + s[1..] == s;
      if s[0] == '/' {
        JoinCons("", rest);
        assert "" + "/" == [s[0]];
      } else {
        JoinHeads([s[0]], rest);
      }
    }
  }

  lemma JoinHasSlash(p: seq<Name>)
    requires |p| >= 2
    ensures '/' in Join(p)
  {
    var a := Join(p[..|p| - 1]);
    assert Join(p)[|a|] == '/';
  }
}
