/** The DOM's listener lists, as seen by `addEventListener` and `removeEventListener`:
    an ordered list of (target, type, callback) entries with no entry twice. */
module Registry {
  import opened Events

  /** No entry occurs twice. */
  predicate NoDup<T(==)>(s: seq<T>)
  {
    forall i, j :: 0 <= i < j < |s| ==> s[i] != s[j]
  }

  /** No entry of `ls` occurs in `s`. */
  predicate Disjoint(s: seq<Listener>, ls: seq<Listener>)
  {
    forall i :: 0 <= i < |ls| ==> ls[i] !in s
  }

  /** `addEventListener`: appends the entry unless the identical entry is already there. */
  function Add(s: seq<Listener>, l: Listener): (r: seq<Listener>)
    ensures l in r
    ensures forall x :: x in r <==> x in s || x == l
    ensures NoDup(s) ==> NoDup(r)
  {
    if l in s then s else s + [l]
  }

  /** `removeEventListener`: drops the matching entry, keeping the order of the others. */
  function Remove(s: seq<Listener>, l: Listener): (r: seq<Listener>)
    ensures |r| <= |s|
    ensures l !in r
  {
    if s == [] then []
    else (if s[0] == l then [] else [s[0]]) + Remove(s[1..], l)
  }

  /** On a list without repeats a removal drops one entry when it is present and none
      otherwise. */
  lemma {:induction false} RemoveCount(s: seq<Listener>, l: Listener)
    requires NoDup(s)
    ensures |Remove(s, l)| == |s| - (if l in s then 1 else 0)
  {
    if s != [] {
      assert NoDup(s[1..]) by {
        forall i, j | 0 <= i < j < |s[1..]| ensures s[1..][i] != s[1..][j] {
          assert s[1..][i] == s[i + 1] && s[1..][j] == s[j + 1];
        }
      }
      RemoveCount(s[1..], l);
      assert s == [s[0]] + s[1..];
      if s[0] == l {
        assert l !in s[1..] by {
          forall j | 0 <= j < |s[1..]| ensures s[1..][j] != l {
            assert s[1..][j] == s[j + 1];
          }
        }
      }
    }
  }

  /** The entries added one call at a time, in order. */
  function AddAll(s: seq<Listener>, ls: seq<Listener>): (r: seq<Listener>)
    decreases |ls|
  {
    if ls == [] then s else AddAll(Add(s, ls[0]), ls[1..])
  }

  /** The entries removed one call at a time, in order. */
  function RemoveAll(s: seq<Listener>, ls: seq<Listener>): (r: seq<Listener>)
    ensures |r| <= |s|
    decreases |ls|
  {
    if ls == [] then s else RemoveAll(Remove(s, ls[0]), ls[1..])
  }

  /** The entries attached to one target. */
  function On(s: seq<Listener>, t: Target): (r: seq<Listener>)
    ensures forall x :: x in r <==> x in s && x.target == t
  {
    if s == [] then []
    else (if s[0].target == t then [s[0]] else []) + On(s[1..], t)
  }

  lemma {:induction false} RemoveAbsent(s: seq<Listener>, l: Listener)
    requires l !in s
    ensures Remove(s, l) == s
  {
    if s != [] {
      RemoveAbsent(s[1..], l);
    }
  }

  /** What stays after a removal: every other entry, and never the removed one. */
  lemma {:induction false} RemoveMembers(s: seq<Listener>, l: Listener, x: Listener)
    ensures x in Remove(s, l) <==> x in s && x != l
  {
    if s != [] {
      RemoveMembers(s[1..], l, x);
      assert s == [s[0]] + s[1..];
    }
  }

  /** Removing keeps the list free of repeats. */
  lemma {:induction false} RemoveNoDup(s: seq<Listener>, l: Listener)
    requires NoDup(s)
    ensures NoDup(Remove(s, l))
  {
    if s != [] {
      assert NoDup(s[1..]) by {
        forall i, j | 0 <= i < j < |s[1..]| ensures s[1..][i] != s[1..][j] {
          assert s[1..][i] == s[i + 1] && s[1..][j] == s[j + 1];
        }
      }
      RemoveNoDup(s[1..], l);
      RemoveMembers(s[1..], l, s[0]);
      var rest := Remove(s[1..], l);
      var r := (if s[0] == l then [] else [s[0]]) + rest;
      forall i, j | 0 <= i < j < |r| ensures r[i] != r[j] {
        if s[0] != l && i == 0 {
          assert r[j] == rest[j - 1];
        } else if s[0] != l {
          assert r[i] == rest[i - 1] && r[j] == rest[j - 1];
        }
      }
    }
  }

  lemma {:induction false} RemoveAppend(a: seq<Listener>, b: seq<Listener>, l: Listener)
    ensures Remove(a + b, l) == Remove(a, l) + Remove(b, l)
  {
    if a == [] {
      assert a + b == b;
    } else {
      assert (a + b)[1..] == a[1..] + b;
      RemoveAppend(a[1..], b, l);
    }
  }

  /** Adding an entry that is not there and then removing it gives back the list as it was. */
  lemma AddThenRemove(s: seq<Listener>, l: Listener)
    requires l !in s
    ensures Remove(Add(s, l), l) == s
  {
    RemoveAppend(s, [l], l);
    RemoveAbsent(s, l);
  }

  lemma {:induction false} AddAllAppend(s: seq<Listener>, a: seq<Listener>, b: seq<Listener>)
    ensures AddAll(s, a + b) == AddAll(AddAll(s, a), b)
    decreases |a|
  {
    if a == [] {
      assert a + b == b;
    } else {
      assert (a + b)[0] == a[0];
      assert (a + b)[1..] == a[1..] + b;
      AddAllAppend(Add(s, a[0]), a[1..], b);
    }
  }

  lemma {:induction false} RemoveAllAppend(s: seq<Listener>, a: seq<Listener>, b: seq<Listener>)
    ensures RemoveAll(s, a + b) == RemoveAll(RemoveAll(s, a), b)
    decreases |a|
  {
    if a == [] {
      assert a + b == b;
    } else {
      assert (a + b)[0] == a[0];
      assert (a + b)[1..] == a[1..] + b;
      RemoveAllAppend(Remove(s, a[0]), a[1..], b);
    }
  }

  /** Registering never disturbs what is already registered: the old list stays a prefix, and
      the list grows by at most one entry per call. */
  lemma {:induction false} AddAllKeeps(s: seq<Listener>, ls: seq<Listener>)
    ensures s <= AddAll(s, ls) && |AddAll(s, ls)| <= |s| + |ls|
    decreases |ls|
  {
    if ls != [] {
      AddAllKeeps(Add(s, ls[0]), ls[1..]);
    }
  }

  /** Bookkeeping for a run of `addEventListener` calls that follows the list `ls`: the
      prefix done so far grows by entry `k`. */
  lemma AddedAt(s: seq<Listener>, ls: seq<Listener>, k: nat)
    requires k < |ls|
    ensures AddAll(s, ls[..k + 1]) == Add(AddAll(s, ls[..k]), ls[k])
  {
    assert ls[..k + 1] == ls[..k] + [ls[k]];
    AddAllAppend(s, ls[..k], [ls[k]]);
    assert [ls[k]][1..] == [];
  }

  /** The same for a run of `removeEventListener` calls. */
  lemma RemovedAt(s: seq<Listener>, ls: seq<Listener>, k: nat)
    requires k < |ls|
    ensures RemoveAll(s, ls[..k + 1]) == Remove(RemoveAll(s, ls[..k]), ls[k])
  {
    assert ls[..k + 1] == ls[..k] + [ls[k]];
    RemoveAllAppend(s, ls[..k], [ls[k]]);
    assert [ls[k]][1..] == [];
  }

  lemma AddAllPair(s: seq<Listener>, l0: Listener, l1: Listener)
    ensures AddAll(s, [l0, l1]) == Add(Add(s, l0), l1)
  {
    assert [l0, l1][1..] == [l1];
    assert [l1][1..] == [];
    assert AddAll(Add(s, l0), [l1]) == AddAll(Add(Add(s, l0), l1), []);
  }

  lemma RemoveAllPair(s: seq<Listener>, l0: Listener, l1: Listener)
    ensures RemoveAll(s, [l0, l1]) == Remove(Remove(s, l0), l1)
  {
    assert [l0, l1][1..] == [l1];
    assert [l1][1..] == [];
    assert RemoveAll(Remove(s, l0), [l1]) == RemoveAll(Remove(Remove(s, l0), l1), []);
  }

  /** Adding entries none of which is present, and no two alike, appends them in order. */
  lemma {:induction false} AddAllFresh(s: seq<Listener>, ls: seq<Listener>)
    requires Disjoint(s, ls) && NoDup(ls)
    ensures AddAll(s, ls) == s + ls
    decreases |ls|
  {
    if ls != [] {
      assert ls[0] !in s;
      assert Disjoint(s + [ls[0]], ls[1..]) by {
        forall i | 0 <= i < |ls[1..]|
          ensures ls[1..][i] !in s + [ls[0]]
        {
          assert ls[1..][i] == ls[i + 1];
          assert ls[i + 1] != ls[0];
        }
      }
      assert NoDup(ls[1..]) by {
        forall i, j | 0 <= i < j < |ls[1..]|
          ensures ls[1..][i] != ls[1..][j]
        {
          assert ls[1..][i] == ls[i + 1] && ls[1..][j] == ls[j + 1];
        }
      }
      AddAllFresh(s + [ls[0]], ls[1..]);
      assert s + [ls[0]] + ls[1..] == s + ls;
    }
  }

  /** Removing an entry that occurs exactly once leaves what surrounded it. */
  lemma RemoveOnce(s: seq<Listener>, l: Listener, tail: seq<Listener>)
    requires l !in s && l !in tail
    ensures Remove(s + ([l] + tail), l) == s + tail
  {
    var block := [l] + tail;
    RemoveAppend(s, block, l);
    RemoveHead(l, tail);
    RemoveAbsent(tail, l);
    RemoveAbsent(s, l);
  }

  lemma RemoveHead(l: Listener, tail: seq<Listener>)
    ensures Remove([l] + tail, l) == Remove(tail, l)
  {
    assert ([l] + tail)[1..] == tail;
  }

  /** Removing a block of entries that occurs nowhere else leaves what surrounded it. */
  lemma {:induction false} RemoveAllBlock(s: seq<Listener>, ls: seq<Listener>, t: seq<Listener>)
    requires Disjoint(s, ls) && Disjoint(t, ls) && NoDup(ls)
    ensures RemoveAll(s + ls + t, ls) == s + t
    decreases |ls|
  {
    if ls == [] {
      assert s + ls + t == s + t;
    } else {
      var l := ls[0];
      var rest := ls[1..];
      assert ls == [l] + rest;
      assert l !in rest by {
        forall i | 0 <= i < |rest| ensures rest[i] != l {
          assert rest[i] == ls[i + 1];
        }
      }
      assert s + ls + t == s + ([l] + (rest + t));
      RemoveOnce(s, l, rest + t);
      assert s + (rest + t) == s + rest + t;
      assert Disjoint(s, rest) && Disjoint(t, rest) by {
        forall i | 0 <= i < |rest| ensures rest[i] !in s && rest[i] !in t {
          assert rest[i] == ls[i + 1];
        }
      }
      assert NoDup(rest) by {
        forall i, j | 0 <= i < j < |rest| ensures rest[i] != rest[j] {
          assert rest[i] == ls[i + 1] && rest[j] == ls[j + 1];
        }
      }
      RemoveAllBlock(s, rest, t);
    }
  }

  /** Registering fresh entries and then unregistering the same entries restores the list. */
  lemma AddAllThenRemoveAll(s: seq<Listener>, ls: seq<Listener>)
    requires Disjoint(s, ls) && NoDup(ls)
    ensures RemoveAll(AddAll(s, ls), ls) == s
  {
    AddAllFresh(s, ls);
    RemoveAllBlock(s, ls, []);
    assert s + ls + [] == s + ls;
    assert s + [] == s;
  }

  /** Removing never brings in an entry. */
  lemma {:induction false} RemoveAllSubset(s: seq<Listener>, ls: seq<Listener>, x: Listener)
    requires x in RemoveAll(s, ls)
    ensures x in s
    decreases |ls|
  {
    if ls != [] {
      RemoveAllSubset(Remove(s, ls[0]), ls[1..], x);
      RemoveMembers(s, ls[0], x);
    }
  }

  /** After a run of removals none of the removed entries is left. */
  lemma {:induction false} RemoveAllGone(s: seq<Listener>, ls: seq<Listener>)
    ensures Disjoint(RemoveAll(s, ls), ls)
    decreases |ls|
  {
    if ls != [] {
      var rest := ls[1..];
      var r := RemoveAll(s, ls);
      RemoveAllGone(Remove(s, ls[0]), rest);
      forall i | 0 <= i < |ls| ensures ls[i] !in r {
        if i == 0 {
          if ls[0] in r {
            RemoveAllSubset(Remove(s, ls[0]), rest, ls[0]);
          }
        } else {
          assert ls[i] == rest[i - 1];
        }
      }
    }
  }

  /** Removing entries none of which is present changes nothing. */
  lemma {:induction false} RemoveAllAbsent(s: seq<Listener>, ls: seq<Listener>)
    requires Disjoint(s, ls)
    ensures RemoveAll(s, ls) == s
    decreases |ls|
  {
    if ls != [] {
      RemoveAbsent(s, ls[0]);
      assert Disjoint(s, ls[1..]) by {
        forall i | 0 <= i < |ls[1..]| ensures ls[1..][i] !in s {
          assert ls[1..][i] == ls[i + 1];
        }
      }
      RemoveAllAbsent(s, ls[1..]);
    }
  }

  /** A second run of the same removals finds nothing left to remove. */
  lemma RemoveAllIdempotent(s: seq<Listener>, ls: seq<Listener>)
    ensures RemoveAll(RemoveAll(s, ls), ls) == RemoveAll(s, ls)
  {
    RemoveAllGone(s, ls);
    RemoveAllAbsent(RemoveAll(s, ls), ls);
  }

  lemma {:induction false} OnAppend(a: seq<Listener>, b: seq<Listener>, t: Target)
    ensures On(a + b, t) == On(a, t) + On(b, t)
  {
    if a == [] {
      assert a + b == b;
    } else {
      assert (a + b)[1..] == a[1..] + b;
      OnAppend(a[1..], b, t);
    }
  }

  lemma {:induction false} OnNone(s: seq<Listener>, t: Target)
    requires forall i :: 0 <= i < |s| ==> s[i].target != t
    ensures On(s, t) == []
  {
    if s != [] {
      OnNone(s[1..], t);
    }
  }

  /** The DOM's listener lists. Every target's list lives here, keyed by the entry's target. */
  class EventRegistry {
    var listeners: seq<Listener>

    /** The DOM never holds the same (target, type, callback) entry twice. */
    predicate Valid()
      reads this
    {
      NoDup(listeners)
    }

    constructor (initial: seq<Listener>)
      requires NoDup(initial)
      ensures listeners == initial && Valid()
    {
      listeners := initial;
    }

    method AddEventListener(target: Target, kind: EventType, handler: Handler)
      requires Valid()
      modifies this
      ensures listeners == Add(old(listeners), Listener(target, kind, handler))
      ensures Valid()
    {
      var l := Listener(target, kind, handler);
      if l !in listeners {
        listeners := listeners + [l];
      }
    }

    method RemoveEventListener(target: Target, kind: EventType, handler: Handler)
      requires Valid()
      modifies this
      ensures listeners == Remove(old(listeners), Listener(target, kind, handler))
      ensures Valid()
    {
      var l := Listener(target, kind, handler);
      var kept: seq<Listener> := [];
      var i := 0;
      while i < |listeners|
        invariant 0 <= i <= |listeners|
        invariant listeners == old(listeners)
        invariant kept == Remove(listeners[..i], l)
      {
        assert listeners[..i + 1] == listeners[..i] + [listeners[i]];
        RemoveAppend(listeners[..i], [listeners[i]], l);
        if listeners[i] != l {
          kept := kept + [listeners[i]];
        }
        i := i + 1;
      }
      assert listeners[..i] == listeners;
      RemoveNoDup(listeners, l);
      listeners := kept;
    }
  }
}
