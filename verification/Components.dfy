/** Connected components of an undirected graph given by a set of ordered pairs. */
module Components {

  ghost predicate Linked<T>(links: set<(T, T)>, a: T, b: T)
  {
    (a, b) in links || (b, a) in links
  }

  ghost predicate IsPath<T>(links: set<(T, T)>, p: seq<T>, a: T, b: T)
  {
    && |p| > 0 && p[0] == a && p[|p| - 1] == b
    && forall i :: 0 <= i < |p| - 1 ==> Linked(links, p[i], p[i + 1])
  }

  ghost predicate Connected<T(!new)>(links: set<(T, T)>, a: T, b: T)
  {
    exists p :: IsPath(links, p, a, b)
  }

  /** No link crosses the border of `s`. */
  ghost predicate Closed<T>(links: set<(T, T)>, s: set<T>)
  {
    forall l :: l in links ==> (l.0 in s <==> l.1 in s)
  }

  ghost predicate AllConnected<T(!new)>(links: set<(T, T)>, s: set<T>)
  {
    forall a, b :: a in s && b in s ==> Connected(links, a, b)
  }

  ghost predicate IsComponent<T(!new)>(links: set<(T, T)>, s: set<T>)
  {
    s != {} && Closed(links, s) && AllConnected(links, s)
  }

  lemma {:induction false} ConnectedSelf<T(!new)>(links: set<(T, T)>, a: T)
    ensures Connected(links, a, a)
  {
    assert IsPath(links, [a], a, a);
  }

  lemma {:induction false} ConnectedLink<T(!new)>(links: set<(T, T)>, a: T, b: T)
    requires Linked(links, a, b)
    ensures Connected(links, a, b)
  {
    assert IsPath(links, [a, b], a, b);
  }

  lemma {:induction false} ConnectedBack<T(!new)>(links: set<(T, T)>, a: T, b: T)
    requires Connected(links, a, b)
    ensures Connected(links, b, a)
  {
    var p :| IsPath(links, p, a, b);
    var q := seq(|p|, i requires 0 <= i < |p| => p[|p| - 1 - i]);
    forall i | 0 <= i < |q| - 1 ensures Linked(links, q[i], q[i + 1]) {
      assert Linked(links, p[|p| - 2 - i], p[|p| - 2 - i + 1]);
    }
    assert IsPath(links, q, b, a);
  }

  lemma {:induction false} ConnectedJoin<T(!new)>(links: set<(T, T)>, a: T, b: T, c: T)
    requires Connected(links, a, b) && Connected(links, b, c)
    ensures Connected(links, a, c)
  {
    var p :| IsPath(links, p, a, b);
    var q :| IsPath(links, q, b, c);
    var r := p + q[1..];
    forall i | 0 <= i < |r| - 1 ensures Linked(links, r[i], r[i + 1]) {
      if i < |p| - 1 {
        assert Linked(links, p[i], p[i + 1]);
      } else {
        assert Linked(links, q[i - |p| + 1], q[i - |p| + 1 + 1]);
      }
    }
    assert IsPath(links, r, a, c);
  }

  lemma {:induction false} ConnectedMore<T(!new)>(links: set<(T, T)>, more: set<(T, T)>, a: T, b: T)
    requires links <= more && Connected(links, a, b)
    ensures Connected(more, a, b)
  {
    var p :| IsPath(links, p, a, b);
    forall i | 0 <= i < |p| - 1 ensures Linked(more, p[i], p[i + 1]) {
      assert Linked(links, p[i], p[i + 1]);
    }
    assert IsPath(more, p, a, b);
  }

  lemma {:induction false} AllConnectedMore<T(!new)>(links: set<(T, T)>, more: set<(T, T)>, s: set<T>)
    requires links <= more && AllConnected(links, s)
    ensures AllConnected(more, s)
  {
    forall a, b | a in s && b in s ensures Connected(more, a, b) {
      ConnectedMore(links, more, a, b);
    }
  }

  /** A path that starts in a closed set never leaves it. */
  lemma {:induction false} PathStays<T(!new)>(links: set<(T, T)>, s: set<T>, p: seq<T>, a: T, b: T)
    requires Closed(links, s) && IsPath(links, p, a, b) && a in s
    ensures b in s
    decreases |p|
  {
    if |p| > 1 {
      assert Linked(links, p[0], p[1]);
      forall i | 0 <= i < |p[1..]| - 1 ensures Linked(links, p[1..][i], p[1..][i + 1]) {
        assert Linked(links, p[i + 1], p[i + 1 + 1]);
      }
      PathStays(links, s, p[1..], p[1], b);
    }
  }

  /** A component is everything that can be reached from any one of its members. */
  lemma {:induction false} ComponentExactly<T(!new)>(links: set<(T, T)>, s: set<T>, a: T, b: T)
    requires IsComponent(links, s) && a in s
    ensures b in s <==> Connected(links, a, b)
  {
    if Connected(links, a, b) {
      var p :| IsPath(links, p, a, b);
      PathStays(links, s, p, a, b);
    }
  }

  /** A value that every link preserves is the same throughout a connected set. */
  lemma {:induction false} ConstantOnPath<T(!new), V>(links: set<(T, T)>, value: map<T, V>, p: seq<T>, a: T, b: T)
    requires forall l :: l in links ==> l.0 in value && l.1 in value && value[l.0] == value[l.1]
    requires IsPath(links, p, a, b) && a in value
    ensures b in value && value[a] == value[b]
    decreases |p|
  {
    if |p| > 1 {
      assert Linked(links, p[0], p[1]);
      forall i | 0 <= i < |p[1..]| - 1 ensures Linked(links, p[1..][i], p[1..][i + 1]) {
        assert Linked(links, p[i + 1], p[i + 1 + 1]);
      }
      ConstantOnPath(links, value, p[1..], p[1], b);
    }
  }

  /** A component needs no links but its own. */
  lemma {:induction false} ComponentFewer<T(!new)>(links: set<(T, T)>, fewer: set<(T, T)>, s: set<T>)
    requires IsComponent(links, s) && fewer <= links
    requires forall l :: l in links && l.0 in s ==> l in fewer
    ensures IsComponent(fewer, s)
  {
    forall a, b | a in s && b in s ensures Connected(fewer, a, b) {
      var p :| IsPath(links, p, a, b);
      PathInside(links, fewer, s, p, a, b);
    }
  }

  lemma {:induction false} PathInside<T(!new)>(links: set<(T, T)>, fewer: set<(T, T)>, s: set<T>, p: seq<T>, a: T, b: T)
    requires Closed(links, s) && IsPath(links, p, a, b) && a in s
    requires forall l :: l in links && l.0 in s ==> l in fewer
    ensures Connected(fewer, a, b)
    decreases |p|
  {
    if |p| == 1 {
      ConnectedSelf(fewer, a);
    } else {
      assert Linked(links, p[0], p[1]);
      forall i | 0 <= i < |p[1..]| - 1 ensures Linked(links, p[1..][i], p[1..][i + 1]) {
        assert Linked(links, p[i + 1], p[i + 1 + 1]);
      }
      PathInside(links, fewer, s, p[1..], p[1], b);
      ConnectedLink(fewer, a, p[1]);
      ConnectedJoin(fewer, a, p[1], b);
    }
  }

  lemma {:induction false} SameComponent<T(!new)>(links: set<(T, T)>, s: set<T>, t: set<T>, a: T)
    requires IsComponent(links, s) && IsComponent(links, t) && a in s && a in t
    ensures s == t
  {
    forall b ensures b in s <==> b in t {
      ComponentExactly(links, s, a, b);
      ComponentExactly(links, t, a, b);
    }
  }
}
