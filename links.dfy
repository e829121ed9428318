/**
 * The intrusive doubly linked lists threaded through the entity table (src/world-sim.c,
 * lines 37-104). Every entity slot carries `next` and `last` handles; a list hangs from a
 * head, which is either a grid cell or one of the two dead lists `freed` and `available`.
 * The first element of a list records in `last` which head it hangs from: the complement
 * ~c = -c-1 of its cell index on a cell list, -1 on a dead list.
 *
 * Here the heads are numbered: 0 .. ncells-1 are the cells in row-major order, ncells is
 * `freed` and ncells+1 is `available`. The lists themselves are ghost sequences that the
 * pointer fields must spell out (predicate Linked).
 */
module Links {
  /** All link fields of a world: the heads, then next and last of every slot. */
  datatype Links = Links(heads: seq<int>, next: seq<int>, last: seq<int>)

  /** The `last` value of the first element of list `k`: ~k on a cell, -1 on a dead list. */
  function Mark(k: nat, ncells: nat): (m: int)
    ensures m < 0
    ensures k < ncells ==> -m - 1 == k
    ensures k >= ncells ==> m == -1
  {
    if k < ncells then -(k as int) - 1 else -1
  }

  /** No element occurs twice. The comparison is wrapped so that it is only unfolded on demand. */
  predicate NoDup(l: seq<int>)
  {
    forall i, j :: 0 <= i < j < |l| ==> Apart(l, i, j)
  }

  predicate Apart(l: seq<int>, i: int, j: int)
    requires 0 <= i < |l| && 0 <= j < |l|
  {
    l[i] != l[j]
  }

  /** NoDup, spelled out for the proofs that compare elements. */
  lemma Distinct(l: seq<int>)
    requires NoDup(l)
    ensures forall i, j :: 0 <= i < |l| && 0 <= j < |l| && i != j ==> l[i] != l[j]
  {
    forall i, j | 0 <= i < |l| && 0 <= j < |l| && i != j ensures l[i] != l[j] {
      if i < j { assert Apart(l, i, j); } else { assert Apart(l, j, i); }
    }
  }

  /** Two given positions of a duplicate-free list hold different slots. */
  lemma Differ(l: seq<int>, a: int, b: int)
    requires NoDup(l) && 0 <= a < |l| && 0 <= b < |l| && a != b
    ensures l[a] != l[b]
  {
    if a < b { assert Apart(l, a, b); } else { assert Apart(l, b, a); }
  }

  /** Removing the element at index i. */
  function Without(l: seq<int>, i: nat): (r: seq<int>)
    requires i < |l|
    ensures |r| == |l| - 1
    ensures forall j :: 0 <= j < i ==> r[j] == l[j]
    ensures forall j :: i <= j < |r| ==> r[j] == l[j + 1]
  {
    l[..i] + l[i + 1..]
  }

  /** The pointer fields spell out the list `l` hanging from head `k`. */
  predicate Chain(s: Links, l: seq<int>, k: nat, ncells: nat)
    requires k < |s.heads| && |s.next| == |s.last|
  {
    (forall i :: 0 <= i < |l| ==> 0 <= l[i] < |s.next|) &&
    s.heads[k] == (if l == [] then -1 else l[0]) &&
    (forall i {:trigger s.next[l[i]]} :: 0 <= i < |l| ==> s.next[l[i]] == (if i + 1 < |l| then l[i + 1] else -1)) &&
    (forall i {:trigger s.last[l[i]]} :: 0 <= i < |l| ==> s.last[l[i]] == (if i == 0 then Mark(k, ncells) else l[i - 1]))
  }

  predicate Shape(s: Links, lists: seq<seq<int>>, owner: seq<int>, ncells: nat)
  {
    |s.heads| == |lists| == ncells + 2 && |s.next| == |s.last| == |owner|
  }

  predicate AllChains(s: Links, lists: seq<seq<int>>, owner: seq<int>, ncells: nat)
    requires Shape(s, lists, owner, ncells)
  {
    forall k {:trigger Chain(s, lists[k], k, ncells)} :: 0 <= k < |lists| ==> Chain(s, lists[k], k, ncells)
  }

  /** `owner[e]` is the list slot e is on, or -1 when it is on none. */
  predicate Owners(lists: seq<seq<int>>, owner: seq<int>)
  {
    (forall k, i :: 0 <= k < |lists| && 0 <= i < |lists[k]| ==>
       0 <= lists[k][i] < |owner| && owner[lists[k][i]] == k) &&
    (forall e :: 0 <= e < |owner| ==> -1 <= owner[e] < |lists|) &&
    (forall e :: 0 <= e < |owner| && owner[e] >= 0 ==> e in lists[owner[e]]) &&
    (forall k {:trigger NoDup(lists[k])} :: 0 <= k < |lists| ==> NoDup(lists[k]))
  }

  /** The link fields are exactly the lists, and each slot is on at most one list. */
  predicate Linked(s: Links, lists: seq<seq<int>>, owner: seq<int>, ncells: nat)
  {
    Shape(s, lists, owner, ncells) && AllChains(s, lists, owner, ncells) && Owners(lists, owner)
  }

  /**
   * unlink_dead and unlink_living: the neighbours of `e` are joined; when `e` is first,
   * head `k` takes its successor. unlink_living finds `k` as ~last itself.
   */
  function Unlink(s: Links, e: nat, k: nat): Links
    requires e < |s.next| == |s.last| && k < |s.heads|
    requires s.next[e] < |s.next| && s.last[e] < |s.next|
  {
    var n, l := s.next[e], s.last[e];
    var last1 := if n >= 0 then s.last[n := l] else s.last;
    if l >= 0 then Links(s.heads, s.next[l := n], last1)
    else Links(s.heads[k := n], s.next, last1)
  }

  /**
   * link_living (and link_dead as it should be): `e` becomes the first element of list
   * `k`, and the old first element points back at it.
   */
  function Push(s: Links, e: nat, k: nat, ncells: nat): Links
    requires e < |s.next| == |s.last| && k < |s.heads| && s.heads[k] < |s.next|
  {
    var h := s.heads[k];
    var next1 := s.next[e := h];
    var last1 := s.last[e := Mark(k, ncells)];
    Links(s.heads[k := e], next1, if h >= 0 then last1[h := e] else last1)
  }

  /** link_dead as written (world-sim.c, lines 54-59): the old first element keeps last == -1. */
  function PushAsWritten(s: Links, e: nat, k: nat): Links
    requires e < |s.next| == |s.last| && k < |s.heads|
  {
    Links(s.heads[k := e], s.next[e := s.heads[k]], s.last[e := -1])
  }

  // ---------------------------------------------------------------------------------
  // What the operations do to the lists

  /** A list's head is -1 or an index into the link fields. */
  lemma HeadInRange(s: Links, lists: seq<seq<int>>, owner: seq<int>, ncells: nat, k: nat)
    requires Linked(s, lists, owner, ncells) && k < |lists|
    ensures -1 <= s.heads[k] < |s.next|
  {
    assert Chain(s, lists[k], k, ncells);
    if lists[k] != [] {
      ChainAt(s, lists[k], k, ncells, 0);
    }
  }

  /** The first element of a list, and only it, has a negative `last`: the mark of its head. */
  lemma HeadIsMarked(s: Links, lists: seq<seq<int>>, owner: seq<int>, ncells: nat, e: nat)
    requires Linked(s, lists, owner, ncells) && e < |owner| && owner[e] >= 0
    ensures s.last[e] < 0 <==> lists[owner[e]][0] == e
    ensures s.last[e] < 0 ==> s.last[e] == Mark(owner[e], ncells)
    ensures -1 <= s.next[e] < |s.next| && s.last[e] < |s.next|
  {
    var k := owner[e];
    var l := lists[k];
    var i :| 0 <= i < |l| && l[i] == e;
    assert Chain(s, l, k, ncells);
    if i > 0 {
      assert 0 <= l[i - 1] < |s.next|;
      assert Owners(lists, owner) && NoDup(l) && Apart(l, 0, i);
    }
    if i + 1 < |l| {
      assert 0 <= l[i + 1] < |s.next|;
    }
  }

  /** A slot on another list is a different slot, so the neighbours of `e` are not on it. */
  lemma ChainFrame(s: Links, r: Links, l: seq<int>, k: nat, ncells: nat)
    requires k < |s.heads| == |r.heads| && |s.next| == |s.last| == |r.next| == |r.last|
    requires Chain(s, l, k, ncells) && r.heads[k] == s.heads[k]
    requires forall i :: 0 <= i < |l| ==> r.next[l[i]] == s.next[l[i]] && r.last[l[i]] == s.last[l[i]]
    ensures Chain(r, l, k, ncells)
  {
  }

  /** Unlinking `e` from the list it is on removes it there and leaves it on no list. */
  lemma UnlinkRemoves(s: Links, lists: seq<seq<int>>, owner: seq<int>, ncells: nat, e: nat, i: nat)
    requires Linked(s, lists, owner, ncells) && e < |owner| && owner[e] >= 0
    requires i < |lists[owner[e]]| && lists[owner[e]][i] == e
    ensures s.next[e] < |s.next| && s.last[e] < |s.next|
    ensures Linked(Unlink(s, e, owner[e]), lists[owner[e] := Without(lists[owner[e]], i)],
                   owner[e := -1], ncells)
  {
    HeadIsMarked(s, lists, owner, ncells, e);
    var k := owner[e];
    var l := lists[k];
    var r := Unlink(s, e, k);
    var lists', owner' := lists[k := Without(l, i)], owner[e := -1];
    assert Chain(s, l, k, ncells) && NoDup(l);
    forall k2 | 0 <= k2 < |lists'|
      ensures Chain(r, lists'[k2], k2, ncells)
    {
      if k2 != k {
        UnlinkFrame(s, lists, owner, ncells, e, k2);
      } else {
        UnlinkChain(s, l, k, ncells, i);
      }
    }
    assert AllChains(r, lists', owner', ncells);
    UnlinkOwners(lists, owner, e, i);
  }

  /**
   * UnlinkRemoves in terms of the fields a world writes: the heads are the cells `cs`
   * followed by `freed` and `available`, and each field is given as the unlink leaves it.
   */
  lemma UnlinkWrites(cs0: seq<int>, f0: int, a0: int, nx0: seq<int>, ls0: seq<int>,
                     lists: seq<seq<int>>, owner: seq<int>, e: nat, i: nat,
                     cs: seq<int>, f: int, a: int, nx: seq<int>, ls: seq<int>)
    requires Linked(Links(cs0 + [f0, a0], nx0, ls0), lists, owner, |cs0|)
    requires e < |owner| && owner[e] >= 0 && i < |lists[owner[e]]| && lists[owner[e]][i] == e
    requires nx0[e] < |nx0| && ls0[e] < |nx0|
    requires ls == (if nx0[e] >= 0 then ls0[nx0[e] := ls0[e]] else ls0)
    requires nx == (if ls0[e] >= 0 then nx0[ls0[e] := nx0[e]] else nx0)
    requires ls0[e] >= 0 || owner[e] != |cs0| ==> f == f0
    requires ls0[e] >= 0 || owner[e] != |cs0| + 1 ==> a == a0
    requires ls0[e] >= 0 || owner[e] >= |cs0| ==> cs == cs0
    requires ls0[e] < 0 && owner[e] == |cs0| ==> f == nx0[e]
    requires ls0[e] < 0 && owner[e] == |cs0| + 1 ==> a == nx0[e]
    requires ls0[e] < 0 && owner[e] < |cs0| ==> cs == cs0[owner[e] := nx0[e]]
    ensures Delete(lists[owner[e]], e) == Without(lists[owner[e]], i)
    ensures Linked(Links(cs + [f, a], nx, ls), lists[owner[e] := Without(lists[owner[e]], i)],
                   owner[e := -1], |cs0|)
  {
    var s := Links(cs0 + [f0, a0], nx0, ls0);
    assert NoDup(lists[owner[e]]);
    DeleteAt(lists[owner[e]], i);
    HeadsUpdate(cs0, f0, a0, owner[e], nx0[e]);
    assert Links(cs + [f, a], nx, ls) == Unlink(s, e, owner[e]);
    UnlinkRemoves(s, lists, owner, |cs0|, e, i);
  }

  /** The lists other than the one `e` is on keep their links. */
  lemma UnlinkFrame(s: Links, lists: seq<seq<int>>, owner: seq<int>, ncells: nat, e: nat, k2: nat)
    requires Linked(s, lists, owner, ncells) && e < |owner| && owner[e] >= 0
    requires k2 < |lists| && k2 != owner[e]
    ensures s.next[e] < |s.next| && s.last[e] < |s.next|
    ensures Chain(Unlink(s, e, owner[e]), lists[k2], k2, ncells)
  {
    HeadIsMarked(s, lists, owner, ncells, e);
    var k := owner[e];
    var n, m := s.next[e], s.last[e];
    var i :| 0 <= i < |lists[k]| && lists[k][i] == e;
    ChainAt(s, lists[k], k, ncells, i);
    if n >= 0 { assert owner[n] == k; }
    if m >= 0 { assert owner[m] == k; }
    var r := Unlink(s, e, k);
    UnlinkFields(s, e, k);
    var l2 := lists[k2];
    assert Chain(s, l2, k2, ncells);
    forall j | 0 <= j < |l2|
      ensures r.next[l2[j]] == s.next[l2[j]] && r.last[l2[j]] == s.last[l2[j]]
    {
      assert owner[l2[j]] == k2;
    }
    ChainFrame(s, r, l2, k2, ncells);
  }

  /** The ownership bookkeeping after removing `e`, the element at `i` of its list. */
  lemma UnlinkOwners(lists: seq<seq<int>>, owner: seq<int>, e: nat, i: nat)
    requires Owners(lists, owner) && e < |owner| && 0 <= owner[e] < |lists|
    requires i < |lists[owner[e]]| && lists[owner[e]][i] == e
    ensures Owners(lists[owner[e] := Without(lists[owner[e]], i)], owner[e := -1])
  {
    var k := owner[e];
    var l := lists[k];
    var l' := Without(l, i);
    var lists', owner' := lists[k := l'], owner[e := -1];
    assert NoDup(l);
    Distinct(l);
    assert NoDup(l') by {
      forall a, b | 0 <= a < b < |l'| ensures Apart(l', a, b) {
        var a', b' := if a < i then a else a + 1, if b < i then b else b + 1;
        assert l'[a] == l[a'] && l'[b] == l[b'];
      }
    }
    forall x | 0 <= x < |owner'| && owner'[x] >= 0
      ensures x in lists'[owner'[x]]
    {
      assert x != e && owner[x] == owner'[x];
      if owner[x] == k {
        var j :| 0 <= j < |l| && l[j] == x;
        assert j != i;
        if j < i { assert l'[j] == x; } else { assert l'[j - 1] == x; }
      }
    }
    forall k2, j | 0 <= k2 < |lists'| && 0 <= j < |lists'[k2]|
      ensures 0 <= lists'[k2][j] < |owner'| && owner'[lists'[k2][j]] == k2
    {
      if k2 == k {
        var j' := if j < i then j else j + 1;
        assert lists'[k2][j] == l[j'] && j' != i;
      }
    }
    assert Owners(lists', owner');
  }

  /** The list `l` hanging from head `k`, without its element at `i`, after the unlink. */
  lemma UnlinkChain(s: Links, l: seq<int>, k: nat, ncells: nat, i: nat)
    requires k < |s.heads| && |s.next| == |s.last| && Chain(s, l, k, ncells) && NoDup(l) && i < |l|
    ensures s.next[l[i]] < |s.next| && s.last[l[i]] < |s.next|
    ensures Chain(Unlink(s, l[i], k), Without(l, i), k, ncells)
  {
    ChainAt(s, l, k, ncells, i);
    var r, l' := Unlink(s, l[i], k), Without(l, i);
    UnlinkHead(s, l, k, ncells, i);
    assert |r.next| == |r.last| && |r.heads| == |s.heads|;
    forall j | 0 <= j < |l'| ensures 0 <= l'[j] < |r.next| {
      UnlinkChainAt(s, l, k, ncells, i, j);
    }
    forall j {:trigger r.next[l'[j]]} | 0 <= j < |l'|
      ensures r.next[l'[j]] == (if j + 1 < |l'| then l'[j + 1] else -1)
    {
      UnlinkChainAt(s, l, k, ncells, i, j);
    }
    forall j {:trigger r.last[l'[j]]} | 0 <= j < |l'|
      ensures r.last[l'[j]] == (if j == 0 then Mark(k, ncells) else l'[j - 1])
    {
      UnlinkChainAt(s, l, k, ncells, i, j);
    }
  }

  /** After the unlink, head `k` names the first element of the shortened list. */
  lemma UnlinkHead(s: Links, l: seq<int>, k: nat, ncells: nat, i: nat)
    requires k < |s.heads| && |s.next| == |s.last| && Chain(s, l, k, ncells) && i < |l|
    ensures s.next[l[i]] < |s.next| && s.last[l[i]] < |s.next|
    ensures Unlink(s, l[i], k).heads[k] == (if Without(l, i) == [] then -1 else Without(l, i)[0])
  {
    ChainAt(s, l, k, ncells, i);
    ChainAt(s, l, k, ncells, 0);
    if i + 1 < |l| { ChainAt(s, l, k, ncells, i + 1); }
  }

  /** One element of the shortened list after the unlink. */
  lemma UnlinkChainAt(s: Links, l: seq<int>, k: nat, ncells: nat, i: nat, j: nat)
    requires k < |s.heads| && |s.next| == |s.last| && Chain(s, l, k, ncells) && NoDup(l) && i < |l|
    requires j < |l| - 1
    ensures s.next[l[i]] < |s.next| && s.last[l[i]] < |s.next|
    ensures var r, l' := Unlink(s, l[i], k), Without(l, i);
      0 <= l'[j] < |r.next| &&
      r.next[l'[j]] == (if j + 1 < |l'| then l'[j + 1] else -1) &&
      r.last[l'[j]] == (if j == 0 then Mark(k, ncells) else l'[j - 1])
  {
    ChainAt(s, l, k, ncells, i);
    ChainAt(s, l, k, ncells, if j < i then j else j + 1);
    UnlinkNextAt(s, l, k, ncells, i, j);
    UnlinkLastAt(s, l, k, ncells, i, j);
  }

  lemma UnlinkNextAt(s: Links, l: seq<int>, k: nat, ncells: nat, i: nat, j: nat)
    requires k < |s.heads| && |s.next| == |s.last| && Chain(s, l, k, ncells) && NoDup(l) && i < |l|
    requires j < |l| - 1
    ensures s.next[l[i]] < |s.next| && s.last[l[i]] < |s.next|
    ensures var l' := Without(l, i);
      Unlink(s, l[i], k).next[l'[j]] == (if j + 1 < |l'| then l'[j + 1] else -1)
  {
    var e := l[i];
    ChainAt(s, l, k, ncells, i);
    var j' := if j < i then j else j + 1;
    ChainAt(s, l, k, ncells, j');
    var x := l[j'];
    UnlinkFieldAt(s, e, k, x);
    if i > 0 && j' != i - 1 {
      Differ(l, j', i - 1);
    }
  }

  lemma UnlinkLastAt(s: Links, l: seq<int>, k: nat, ncells: nat, i: nat, j: nat)
    requires k < |s.heads| && |s.next| == |s.last| && Chain(s, l, k, ncells) && NoDup(l) && i < |l|
    requires j < |l| - 1
    ensures s.next[l[i]] < |s.next| && s.last[l[i]] < |s.next|
    ensures var l' := Without(l, i);
      Unlink(s, l[i], k).last[l'[j]] == (if j == 0 then Mark(k, ncells) else l'[j - 1])
  {
    var e := l[i];
    ChainAt(s, l, k, ncells, i);
    var j' := if j < i then j else j + 1;
    ChainAt(s, l, k, ncells, j');
    var x := l[j'];
    UnlinkFieldAt(s, e, k, x);
    if i + 1 < |l| && j' != i + 1 {
      Differ(l, j', i + 1);
    }
  }

  /** The two pointer fields of slot `x` after the unlink of `e`. */
  lemma UnlinkFieldAt(s: Links, e: nat, k: nat, x: int)
    requires e < |s.next| == |s.last| && k < |s.heads|
    requires s.next[e] < |s.next| && s.last[e] < |s.next| && 0 <= x < |s.next|
    ensures |Unlink(s, e, k).next| == |s.next|
    ensures Unlink(s, e, k).next[x] == (if x == s.last[e] then s.next[e] else s.next[x])
    ensures Unlink(s, e, k).last[x] == (if x == s.next[e] then s.last[e] else s.last[x])
  {
  }

  /** What Chain says about the element at index i. */
  lemma ChainAt(s: Links, l: seq<int>, k: nat, ncells: nat, i: nat)
    requires k < |s.heads| && |s.next| == |s.last| && Chain(s, l, k, ncells) && i < |l|
    ensures 0 <= l[i] < |s.next|
    ensures s.next[l[i]] == (if i + 1 < |l| then l[i + 1] else -1)
    ensures s.last[l[i]] == (if i == 0 then Mark(k, ncells) else l[i - 1])
    ensures i == 0 ==> s.heads[k] == l[0]
  {
  }

  /** The fields Unlink writes, slot by slot. */
  lemma UnlinkFields(s: Links, e: nat, k: nat)
    requires e < |s.next| == |s.last| && k < |s.heads|
    requires s.next[e] < |s.next| && s.last[e] < |s.next|
    ensures var r, n, m := Unlink(s, e, k), s.next[e], s.last[e];
      |r.next| == |r.last| == |s.next| && |r.heads| == |s.heads| &&
      (forall x :: 0 <= x < |s.next| ==> r.next[x] == (if x == m then n else s.next[x])) &&
      (forall x :: 0 <= x < |s.next| ==> r.last[x] == (if x == n then m else s.last[x])) &&
      r.heads == (if m >= 0 then s.heads else s.heads[k := n])
  {
  }

  /** Pushing a slot that is on no list makes it the first element of list `k`. */
  lemma PushPrepends(s: Links, lists: seq<seq<int>>, owner: seq<int>, ncells: nat, e: nat, k: nat)
    requires Linked(s, lists, owner, ncells) && e < |owner| && owner[e] == -1 && k < |lists|
    ensures s.heads[k] < |s.next|
    ensures Linked(Push(s, e, k, ncells), lists[k := [e] + lists[k]], owner[e := k], ncells)
  {
    var l := lists[k];
    assert Chain(s, l, k, ncells);
    var h := s.heads[k];
    assert e !in l by {
      forall j | 0 <= j < |l| ensures l[j] != e {
        assert owner[l[j]] == k;
      }
    }
    var r := Push(s, e, k, ncells);
    var lists', owner' := lists[k := [e] + l], owner[e := k];
    forall k2 | 0 <= k2 < |lists'|
      ensures Chain(r, lists'[k2], k2, ncells)
    {
      if k2 != k {
        PushFrame(s, lists, owner, ncells, e, k, k2);
      } else {
        PushChain(s, l, k, ncells, e);
      }
    }
    assert AllChains(r, lists', owner', ncells);
    PushOwners(lists, owner, e, k);
  }

  /** PushPrepends in terms of the fields a world writes (compare UnlinkWrites). */
  lemma PushWrites(cs0: seq<int>, f0: int, a0: int, nx0: seq<int>, ls0: seq<int>,
                   lists: seq<seq<int>>, owner: seq<int>, e: nat, k: nat, h: int,
                   cs: seq<int>, f: int, a: int, nx: seq<int>, ls: seq<int>)
    requires Linked(Links(cs0 + [f0, a0], nx0, ls0), lists, owner, |cs0|)
    requires e < |owner| && owner[e] == -1 && k < |lists|
    requires h == (cs0 + [f0, a0])[k]
    requires nx == nx0[e := h]
    requires ls == (if 0 <= h < |ls0| then ls0[e := Mark(k, |cs0|)][h := e] else ls0[e := Mark(k, |cs0|)])
    requires k != |cs0| ==> f == f0
    requires k != |cs0| + 1 ==> a == a0
    requires k >= |cs0| ==> cs == cs0
    requires k == |cs0| ==> f == e
    requires k == |cs0| + 1 ==> a == e
    requires k < |cs0| ==> cs == cs0[k := e]
    ensures Linked(Links(cs + [f, a], nx, ls), lists[k := [e] + lists[k]], owner[e := k], |cs0|)
  {
    var s := Links(cs0 + [f0, a0], nx0, ls0);
    PushPrepends(s, lists, owner, |cs0|, e, k);
    HeadsUpdate(cs0, f0, a0, k, e);
    assert Links(cs + [f, a], nx, ls) == Push(s, e, k, |cs0|);
  }

  /** The pushed list, element by element. */
  lemma PushChain(s: Links, l: seq<int>, k: nat, ncells: nat, e: nat)
    requires k < |s.heads| && |s.next| == |s.last| && Chain(s, l, k, ncells) && NoDup(l)
    requires e < |s.next| && e !in l
    ensures s.heads[k] < |s.next|
    ensures Chain(Push(s, e, k, ncells), [e] + l, k, ncells)
  {
    if l != [] { ChainAt(s, l, k, ncells, 0); }
    var r := Push(s, e, k, ncells);
    var l' := [e] + l;
    forall j | 0 <= j < |l'|
      ensures r.next[l'[j]] == (if j + 1 < |l'| then l'[j + 1] else -1)
    {
      if j > 0 {
        ChainAt(s, l, k, ncells, j - 1);
        assert l'[j] == l[j - 1] != e;
        if j > 1 { assert l[j - 1] != l[0]; }
      }
    }
    forall j | 0 <= j < |l'|
      ensures r.last[l'[j]] == (if j == 0 then Mark(k, ncells) else l'[j - 1])
    {
      if j > 0 {
        ChainAt(s, l, k, ncells, j - 1);
        assert l'[j] == l[j - 1] != e;
        if j > 1 { assert l[j - 1] != l[0]; }
      }
    }
    assert Chain(r, l', k, ncells);
  }

  /** The other lists keep their links when `e` is pushed onto list `k`. */
  lemma PushFrame(s: Links, lists: seq<seq<int>>, owner: seq<int>, ncells: nat, e: nat, k: nat, k2: nat)
    requires Linked(s, lists, owner, ncells) && e < |owner| && owner[e] == -1 && k < |lists|
    requires k2 < |lists| && k2 != k
    ensures s.heads[k] < |s.next|
    ensures Chain(Push(s, e, k, ncells), lists[k2], k2, ncells)
  {
    assert Chain(s, lists[k], k, ncells);
    var h := s.heads[k];
    if h >= 0 { ChainAt(s, lists[k], k, ncells, 0); assert owner[h] == k; }
    var r := Push(s, e, k, ncells);
    var l2 := lists[k2];
    assert Chain(s, l2, k2, ncells);
    forall j | 0 <= j < |l2|
      ensures r.next[l2[j]] == s.next[l2[j]] && r.last[l2[j]] == s.last[l2[j]]
    {
      assert owner[l2[j]] == k2;
    }
    ChainFrame(s, r, l2, k2, ncells);
  }

  /** The ownership bookkeeping after pushing `e` onto list `k`. */
  lemma PushOwners(lists: seq<seq<int>>, owner: seq<int>, e: nat, k: nat)
    requires Owners(lists, owner) && e < |owner| && owner[e] == -1 && k < |lists|
    ensures Owners(lists[k := [e] + lists[k]], owner[e := k])
  {
    var l := lists[k];
    var l' := [e] + l;
    var lists', owner' := lists[k := l'], owner[e := k];
    assert NoDup(l);
    assert e !in l by {
      forall j | 0 <= j < |l| ensures l[j] != e {
        assert owner[l[j]] == k;
      }
    }
    Distinct(l);
    assert NoDup(l') by {
      forall a, b | 0 <= a < b < |l'| ensures Apart(l', a, b) {
        if a > 0 { assert l'[a] == l[a - 1] && l'[b] == l[b - 1]; }
        else { assert l'[b] == l[b - 1]; }
      }
    }
    forall x | 0 <= x < |owner'| && owner'[x] >= 0
      ensures x in lists'[owner'[x]]
    {
      if x != e && owner[x] == k {
        var j :| 0 <= j < |l| && l[j] == x;
        assert l'[j + 1] == x;
      }
    }
    forall k2, j | 0 <= k2 < |lists'| && 0 <= j < |lists'[k2]|
      ensures 0 <= lists'[k2][j] < |owner'| && owner'[lists'[k2][j]] == k2
    {
      if k2 == k && j > 0 {
        assert lists'[k2][j] == l[j - 1];
      }
    }
    assert Owners(lists', owner');
  }

  /**
   * Unlinking straight after a push restores every head and the fields of every other
   * slot: link_living followed by unlink_living is undone, through ~(~k) == k.
   */
  lemma UnlinkUndoesPush(s: Links, e: nat, k: nat, ncells: nat)
    requires e < |s.next| == |s.last| && k < |s.heads| && s.heads[k] < |s.next|
    requires s.heads[k] != e
    requires s.heads[k] >= 0 ==> s.last[s.heads[k]] == Mark(k, ncells)
    ensures Push(s, e, k, ncells).next[e] < |s.next| && Push(s, e, k, ncells).last[e] < |s.next|
    ensures Unlink(Push(s, e, k, ncells), e, k).heads == s.heads
    ensures forall j :: 0 <= j < |s.next| && j != e ==>
      Unlink(Push(s, e, k, ncells), e, k).next[j] == s.next[j] &&
      Unlink(Push(s, e, k, ncells), e, k).last[j] == s.last[j]
  {
  }

  /** A slot appended to the table (alloc_new_ent) starts on no list; the lists keep their links. */
  lemma GrowKeepsLinked(s: Links, lists: seq<seq<int>>, owner: seq<int>, ncells: nat, n: int, m: int)
    requires Linked(s, lists, owner, ncells)
    ensures Linked(Links(s.heads, s.next + [n], s.last + [m]), lists, owner + [-1], ncells)
  {
    var r := Links(s.heads, s.next + [n], s.last + [m]);
    forall k | 0 <= k < |lists| ensures Chain(r, lists[k], k, ncells) {
      assert Chain(s, lists[k], k, ncells);
    }
    var owner' := owner + [-1];
    forall k, i | 0 <= k < |lists| && 0 <= i < |lists[k]|
      ensures 0 <= lists[k][i] < |owner'| && owner'[lists[k][i]] == k
    {
    }
    assert AllChains(r, lists, owner', ncells);
    assert Owners(lists, owner');
  }

  /** A table with no slots and every head -1 spells out empty lists. */
  lemma EmptyLinked(heads: seq<int>, ncells: nat)
    requires |heads| == ncells + 2 && forall k :: 0 <= k < |heads| ==> heads[k] == -1
    ensures Linked(Links(heads, [], []), seq(ncells + 2, _ => []), [], ncells)
  {
    var s, lists := Links(heads, [], []), seq(ncells + 2, _ => []);
    forall k | 0 <= k < |lists| ensures Chain(s, lists[k], k, ncells) {
      assert lists[k] == [];
    }
  }

  /** Writing one head of a world whose heads are the cells followed by the two dead lists. */
  lemma HeadsUpdate(cs: seq<int>, f: int, a: int, c: nat, n: int)
    ensures (cs + [f, a])[|cs| := n] == cs + [n, a]
    ensures (cs + [f, a])[|cs| + 1 := n] == cs + [f, n]
    ensures c < |cs| ==> (cs + [f, a])[c := n] == cs[c := n] + [f, a]
  {
  }

  /** The list `l` without the element `x`. */
  function Delete(l: seq<int>, x: int): (r: seq<int>)
    ensures x !in l ==> r == l
  {
    if l == [] then [] else if l[0] == x then l[1..] else [l[0]] + Delete(l[1..], x)
  }

  /** On a list without repeats, deleting the element at `i` is removing index `i`. */
  lemma {:induction false} DeleteAt(l: seq<int>, i: nat)
    requires NoDup(l) && i < |l|
    ensures Delete(l, l[i]) == Without(l, i)
  {
    if i > 0 {
      assert NoDup(l[1..]) by {
        forall a, b | 0 <= a < b < |l[1..]| ensures Apart(l[1..], a, b) {
          assert l[1..][a] == l[a + 1] && l[1..][b] == l[b + 1] && Apart(l, a + 1, b + 1);
        }
      }
      assert Apart(l, 0, i);
      DeleteAt(l[1..], i - 1);
      assert l[1..][i - 1] == l[i];
      assert Without(l, i) == [l[0]] + Without(l[1..], i - 1);
    }
  }

  // ---------------------------------------------------------------------------------
  // link_dead as written

  /**
   * Removing handles 0 and then 1 pushes both onto `freed` (head 1 of a one-cell world);
   * destroying 0 then unlinks it. With link_dead as written, slot 0 still has last == -1,
   * so unlink_dead takes it for the first element and sets `freed` to its successor,
   * -1: handle 1, still removed, is lost from `freed`. The corrected push keeps it.
   */
  lemma LinkDeadAsWrittenLosesEntry()
    ensures var s0 := Links([-1, -1, -1], [-1, -1], [-1, -1]);
            var w := PushAsWritten(PushAsWritten(s0, 0, 1), 1, 1);
            !Chain(w, [1, 0], 1, 1) && Unlink(w, 0, 1).heads[1] == -1
    ensures var s0 := Links([-1, -1, -1], [-1, -1], [-1, -1]);
            var c := Push(Push(s0, 0, 1, 1), 1, 1, 1);
            Chain(c, [1, 0], 1, 1) && Unlink(c, 0, 1).heads[1] == 1 && Chain(Unlink(c, 0, 1), [1], 1, 1)
  {
    var s0 := Links([-1, -1, -1], [-1, -1], [-1, -1]);
    var w := PushAsWritten(PushAsWritten(s0, 0, 1), 1, 1);
    assert w == Links([-1, 1, -1], [-1, 0], [-1, -1]);
    assert w.last[[1, 0][1]] != [1, 0][0];
    var c := Push(Push(s0, 0, 1, 1), 1, 1, 1);
    assert c == Links([-1, 1, -1], [-1, 0], [1, -1]);
    assert Unlink(c, 0, 1) == Links([-1, 1, -1], [-1, -1], [1, -1]);
  }

  /**
   * The loss for every dead list: push `e` onto a dead list `l` that is spelled out
   * correctly. Its old first element `l[0]` keeps last == -1, so unlinking it, though it
   * is no longer first, makes its successor the head of the list: `e`, the real first
   * element, is dropped. With the corrected push, `e` stays at the head.
   */
  lemma LinkDeadAsWrittenDropsHead(s: Links, l: seq<int>, k: nat, ncells: nat, e: nat)
    requires ncells <= k < |s.heads| && |s.next| == |s.last| && e < |s.next|
    requires Chain(s, l, k, ncells) && l != [] && e !in l
    ensures var w := PushAsWritten(s, e, k);
      w.heads[k] == e && w.next[e] == l[0] && w.last[l[0]] == -1 &&
      w.next[l[0]] < |w.next| && w.last[l[0]] < |w.next| &&
      Unlink(w, l[0], k).heads[k] == (if |l| > 1 then l[1] else -1) != e
    ensures var c := Push(s, e, k, ncells);
      c.next[l[0]] < |c.next| && c.last[l[0]] < |c.next| &&
      c.last[l[0]] == e && Unlink(c, l[0], k).heads[k] == e
  {
    assert s.next[l[0]] == (if 1 < |l| then l[1] else -1);
    assert s.last[l[0]] == Mark(k, ncells);
  }
}
