/**
 * The forum category forest as the command line tool walks it: ancestors, moderators with
 * first-wins de-duplication, and access to several categories computed by counting.
 */
module ForumAccess {
  import opened Wrappers

  type CategoryId = nat
  type WorkerId = nat

  datatype Category = Category(parent: Option<CategoryId>, archived: bool)

  type Forum = map<CategoryId, Category>

  /** Moderators assigned directly to a category, in storage key order. */
  type Moderators = map<CategoryId, seq<WorkerId>>

  /** Storage answers a missing category with the default one, which has no parent. */
  function CategoryById(f: Forum, id: CategoryId): Category {
    if id in f then f[id] else Category(None, false)
  }

  function AssignedTo(mods: Moderators, id: CategoryId): seq<WorkerId> {
    if id in mods then mods[id] else []
  }

  ghost predicate Distinct<T>(s: seq<T>) {
    forall i, j :: 0 <= i < j < |s| ==> s[i] != s[j]
  }

  // ---------------------------------------------------------------- chains of ancestors

  /** Each element's parent is the next one. */
  ghost predicate ParentPath(f: Forum, p: seq<CategoryId>) {
    |p| > 0 && forall i :: 0 <= i < |p| - 1 ==> p[i] in f && f[p[i]].parent == Some(p[i + 1])
  }

  /** A parent path from `id` all the way to a category without parent. */
  ghost predicate IsChain(f: Forum, p: seq<CategoryId>, id: CategoryId) {
    ParentPath(f, p) && p[0] == id && (p[|p| - 1] in f ==> f[p[|p| - 1]].parent.None?)
  }

  /** No category is met twice on the way up from `id`. */
  ghost predicate AcyclicFrom(f: Forum, id: CategoryId) {
    forall p: seq<CategoryId> :: ParentPath(f, p) && p[0] == id ==> Distinct(p)
  }

  lemma {:induction false} DistinctSize<T>(s: seq<T>, bound: set<T>)
    requires Distinct(s) && forall i :: 0 <= i < |s| ==> s[i] in bound
    ensures |s| <= |bound|
    decreases |s|
  {
    if s == [] {
    } else {
      var last := |s| - 1;
      DistinctSize(s[..last], bound - {s[last]});
    }
  }

  /** All but the top of a path have a parent, so they are stored categories. */
  lemma PathBound(f: Forum, p: seq<CategoryId>)
    requires ParentPath(f, p) && Distinct(p)
    ensures |p| <= |f| + 1
  {
    var below := p[..|p| - 1];
    forall i | 0 <= i < |below| ensures below[i] in f.Keys {
      assert CategoryById(f, p[i]).parent == Some(p[i + 1]);
    }
    DistinctSize(below, f.Keys);
  }

  lemma {:induction false} PathIsPrefix(f: Forum, p: seq<CategoryId>, c: seq<CategoryId>, k: nat)
    requires |c| > 0 && IsChain(f, c, c[0]) && ParentPath(f, p) && p[0] == c[0] && k < |p|
    ensures k < |c| && p[k] == c[k]
    decreases k
  {
    if k == 0 {
    } else {
      PathIsPrefix(f, p, c, k - 1);
      assert CategoryById(f, p[k - 1]).parent == Some(p[k]);
    }
  }

  lemma ChainIsUnique(f: Forum, c: seq<CategoryId>, d: seq<CategoryId>, id: CategoryId)
    requires IsChain(f, c, id) && IsChain(f, d, id)
    ensures c == d
  {
    forall k | 0 <= k < |c| ensures k < |d| && c[k] == d[k] { PathIsPrefix(f, c, d, k); }
    PathIsPrefix(f, c, d, |c| - 1);
    PathIsPrefix(f, d, c, |d| - 1);
  }

  lemma SuffixIsChain(f: Forum, c: seq<CategoryId>, i: nat)
    requires |c| > 0 && IsChain(f, c, c[0]) && i < |c|
    ensures IsChain(f, c[i..], c[i])
  {
  }

  lemma ChainIsDistinct(f: Forum, c: seq<CategoryId>)
    requires |c| > 0 && IsChain(f, c, c[0])
    ensures Distinct(c)
  {
    forall i, j | 0 <= i < j < |c| ensures c[i] != c[j] {
      SuffixIsChain(f, c, i);
      SuffixIsChain(f, c, j);
      if c[i] == c[j] {
        ChainIsUnique(f, c[i..], c[j..], c[i]);
      }
    }
  }

  /** Walk on from an acyclic path until there is no parent. */
  lemma {:induction false} ExtendToChain(f: Forum, p: seq<CategoryId>) returns (c: seq<CategoryId>)
    requires ParentPath(f, p) && AcyclicFrom(f, p[0])
    ensures IsChain(f, c, p[0])
    decreases |f| + 1 - |p|
  {
    var top := CategoryById(f, p[|p| - 1]);
    if top.parent.None? {
      c := p;
    } else {
      var q := p + [top.parent.value];
      assert ParentPath(f, q);
      PathBound(f, q);
      c := ExtendToChain(f, q);
    }
  }

  /** The walk up from a category ends at a root exactly when it meets no cycle. */
  lemma ChainExistsIffAcyclic(f: Forum, id: CategoryId)
    ensures (exists c: seq<CategoryId> :: IsChain(f, c, id)) <==> AcyclicFrom(f, id)
  {
    if AcyclicFrom(f, id) {
      assert ParentPath(f, [id]);
      var c := ExtendToChain(f, [id]);
    }
    if c: seq<CategoryId> :| IsChain(f, c, id) {
      ChainIsDistinct(f, c);
      forall p: seq<CategoryId> | ParentPath(f, p) && p[0] == id ensures Distinct(p) {
        forall k | 0 <= k < |p| ensures k < |c| && p[k] == c[k] { PathIsPrefix(f, p, c, k); }
      }
    }
  }

  /** The category, its parent, and so on up to the root. */
  ghost function Chain(f: Forum, id: CategoryId): (c: seq<CategoryId>)
    requires AcyclicFrom(f, id)
    ensures IsChain(f, c, id)
  {
    ChainExistsIffAcyclic(f, id);
    var c :| IsChain(f, c, id);
    c
  }

  /** `forumCategoryAncestors`: follow parents until there is none. */
  method ForumCategoryAncestors(f: Forum, id: CategoryId) returns (ancestors: seq<(CategoryId, Category)>)
    requires AcyclicFrom(f, id)
    ensures |ancestors| == |Chain(f, id)| - 1
    ensures forall i :: 0 <= i < |ancestors| ==>
              ancestors[i] == (Chain(f, id)[i + 1], CategoryById(f, Chain(f, id)[i + 1]))
  {
    ancestors := [];
    var category := CategoryById(f, id);
    ghost var path := [id];
    while category.parent.Some?
      invariant ParentPath(f, path) && path[0] == id && |path| == |ancestors| + 1
      invariant category == CategoryById(f, path[|path| - 1])
      invariant forall i :: 0 <= i < |ancestors| ==> ancestors[i] == (path[i + 1], CategoryById(f, path[i + 1]))
      decreases |f| + 1 - |path|
    {
      var parentCategoryId := category.parent.value;
      path := path + [parentCategoryId];
      PathBound(f, path);
      category := CategoryById(f, parentCategoryId);
      ancestors := ancestors + [(parentCategoryId, category)];
    }
    ChainIsUnique(f, path, Chain(f, id), id);
  }

  datatype CategoryError = CategoryNotFound | CategoryNotMutable

  /** `ensureCategoryMutable`: refused exactly when the category is missing or an archived one
      stands on its chain. */
  method EnsureCategoryMutable(f: Forum, id: CategoryId) returns (r: Result<(), CategoryError>)
    requires AcyclicFrom(f, id)
    ensures r.Ok? <==> id in f && forall x :: x in Chain(f, id) && x in f ==> !f[x].archived
    ensures r.Err? ==> r.error == if id in f then CategoryNotMutable else CategoryNotFound
  {
    if id !in f {
      return Err(CategoryNotFound);
    }
    var ancestors := ForumCategoryAncestors(f, id);
    ghost var chain := Chain(f, id);
    if CategoryById(f, id).archived {
      assert chain[0] in chain;
      return Err(CategoryNotMutable);
    }
    for i := 0 to |ancestors|
      invariant forall j :: 0 <= j <= i ==> !CategoryById(f, chain[j]).archived
    {
      if ancestors[i].1.archived {
        assert chain[i + 1] in chain;
        return Err(CategoryNotMutable);
      }
    }
    return Ok(());
  }

  // ---------------------------------------------------------------- moderators of one category

  /** `w` is assigned somewhere on the chain of the category. */
  ghost predicate HasAccess(f: Forum, mods: Moderators, id: CategoryId, w: WorkerId)
    requires AcyclicFrom(f, id)
  {
    exists x :: x in Chain(f, id) && x in mods && w in mods[x]
  }

  /** The moderators of an ancestor moderate everything below it. */
  lemma AccessIsInherited(f: Forum, mods: Moderators, id: CategoryId, ancestor: CategoryId, w: WorkerId)
    requires AcyclicFrom(f, id) && AcyclicFrom(f, ancestor)
    requires ancestor in Chain(f, id) && HasAccess(f, mods, ancestor, w)
    ensures HasAccess(f, mods, id, w)
  {
    var c := Chain(f, id);
    var i :| 0 <= i < |c| && c[i] == ancestor;
    SuffixIsChain(f, c, i);
    ChainIsUnique(f, c[i..], Chain(f, ancestor), ancestor);
    var x :| x in Chain(f, ancestor) && x in mods && w in mods[x];
    assert x in c[i..];
  }

  type Assignment = (CategoryId, WorkerId)

  predicate Has(pairs: seq<Assignment>, w: WorkerId) {
    exists i :: 0 <= i < |pairs| && pairs[i].1 == w
  }

  ghost predicate OncePerWorker(pairs: seq<Assignment>) {
    forall i, j :: 0 <= i < j < |pairs| ==> pairs[i].1 != pairs[j].1
  }

  /** Storage keys of one category. */
  function Tagged(id: CategoryId, ws: seq<WorkerId>): (pairs: seq<Assignment>)
    ensures |pairs| == |ws| && forall i :: 0 <= i < |ws| ==> pairs[i] == (id, ws[i])
  {
    seq(|ws|, i requires 0 <= i < |ws| => (id, ws[i]))
  }

  /** The keys of several categories, concatenated in order. */
  function Assignments(mods: Moderators, ids: seq<CategoryId>): seq<Assignment> {
    if ids == [] then []
    else Assignments(mods, ids[..|ids| - 1]) + Tagged(ids[|ids| - 1], AssignedTo(mods, ids[|ids| - 1]))
  }

  /** `uniqWith` on the worker: the first pair of each worker stays. */
  function UniqueWorkers(pairs: seq<Assignment>): seq<Assignment> {
    if pairs == [] then []
    else
      var kept := UniqueWorkers(pairs[..|pairs| - 1]);
      var last := pairs[|pairs| - 1];
      if Has(kept, last.1) then kept else kept + [last]
  }

  lemma {:induction false} UniqueWorkersKeepsEach(pairs: seq<Assignment>)
    ensures OncePerWorker(UniqueWorkers(pairs))
    ensures forall w :: Has(UniqueWorkers(pairs), w) <==> Has(pairs, w)
    decreases |pairs|
  {
    if pairs == [] {
    } else {
      var front, last := pairs[..|pairs| - 1], pairs[|pairs| - 1];
      UniqueWorkersKeepsEach(front);
      var kept, all := UniqueWorkers(front), UniqueWorkers(pairs);
      forall w ensures Has(all, w) <==> Has(pairs, w) {
        assert Has(pairs, w) <==> Has(front, w) || last.1 == w by {
          if Has(front, w) {
            var i :| 0 <= i < |front| && front[i].1 == w;
            assert pairs[i] == front[i];
          }
          if last.1 == w { assert pairs[|pairs| - 1].1 == w; }
        }
        assert Has(all, w) <==> Has(kept, w) || last.1 == w by {
          if Has(kept, w) {
            var i :| 0 <= i < |kept| && kept[i].1 == w;
            assert all[i] == kept[i];
          } else if last.1 == w {
            assert all[|kept|].1 == w;
          }
        }
      }
    }
  }

  /** A kept pair of `a + b` was kept from `a`, or comes from `b` and its worker is new. */
  lemma {:induction false} UniqueWorkersOfConcat(a: seq<Assignment>, b: seq<Assignment>, k: nat)
    requires k < |UniqueWorkers(a + b)|
    ensures var r := UniqueWorkers(a + b)[k]; r in UniqueWorkers(a) || (r in b && !Has(a, r.1))
    decreases |b|
  {
    if b == [] {
      assert a + b == a;
    } else {
      var front, last := b[..|b| - 1], b[|b| - 1];
      assert (a + b)[..|a + b| - 1] == a + front;
      var kept := UniqueWorkers(a + front);
      if k < |kept| {
        UniqueWorkersOfConcat(a, front, k);
      } else {
        UniqueWorkersKeepsEach(a + front);
        forall i | 0 <= i < |a| ensures a[i].1 != last.1 {
          assert (a + front)[i] == a[i];
        }
        assert last in b;
      }
    }
  }

  /** The worker is assigned to `c` at some place of the list and nowhere before it. */
  ghost predicate FirstAssigned(mods: Moderators, ids: seq<CategoryId>, r: Assignment) {
    exists j :: 0 <= j < |ids| && ids[j] == r.0 && r.1 in AssignedTo(mods, ids[j])
             && forall i :: 0 <= i < j ==> r.1 !in AssignedTo(mods, ids[i])
  }

  lemma HasConcat(a: seq<Assignment>, b: seq<Assignment>, w: WorkerId)
    ensures Has(a + b, w) <==> Has(a, w) || Has(b, w)
  {
    if Has(a, w) {
      var i :| 0 <= i < |a| && a[i].1 == w;
      assert (a + b)[i].1 == w;
    }
    if Has(b, w) {
      var i :| 0 <= i < |b| && b[i].1 == w;
      assert (a + b)[|a| + i].1 == w;
    }
  }

  lemma HasTagged(id: CategoryId, ws: seq<WorkerId>, w: WorkerId)
    ensures Has(Tagged(id, ws), w) <==> w in ws
  {
    if w in ws {
      var i :| 0 <= i < |ws| && ws[i] == w;
      assert Tagged(id, ws)[i].1 == w;
    }
  }

  lemma {:induction false} AssignmentsHas(mods: Moderators, ids: seq<CategoryId>, w: WorkerId)
    ensures Has(Assignments(mods, ids), w) <==> exists i :: 0 <= i < |ids| && w in AssignedTo(mods, ids[i])
    decreases |ids|
  {
    if ids == [] {
    } else {
      var front, last := ids[..|ids| - 1], ids[|ids| - 1];
      AssignmentsHas(mods, front, w);
      HasConcat(Assignments(mods, front), Tagged(last, AssignedTo(mods, last)), w);
      HasTagged(last, AssignedTo(mods, last), w);
      assert forall i :: 0 <= i < |front| ==> front[i] == ids[i];
    }
  }

  lemma {:induction false} KeptPairIsFirst(mods: Moderators, ids: seq<CategoryId>, k: nat)
    requires k < |UniqueWorkers(Assignments(mods, ids))|
    ensures FirstAssigned(mods, ids, UniqueWorkers(Assignments(mods, ids))[k])
    decreases |ids|
  {
    if ids == [] {
    } else {
      var front, last := ids[..|ids| - 1], ids[|ids| - 1];
      var a, b := Assignments(mods, front), Tagged(last, AssignedTo(mods, last));
      var r := UniqueWorkers(Assignments(mods, ids))[k];
      UniqueWorkersOfConcat(a, b, k);
      if r in UniqueWorkers(a) {
        var m :| 0 <= m < |UniqueWorkers(a)| && UniqueWorkers(a)[m] == r;
        KeptPairIsFirst(mods, front, m);
        var j :| 0 <= j < |front| && front[j] == r.0 && r.1 in AssignedTo(mods, front[j])
              && forall i :: 0 <= i < j ==> r.1 !in AssignedTo(mods, front[i]);
        assert ids[j] == front[j] && forall i :: 0 <= i < j ==> ids[i] == front[i];
      } else {
        AssignmentsHas(mods, front, r.1);
        assert forall i :: 0 <= i < |front| ==> ids[i] == front[i];
        assert ids[|ids| - 1] == r.0;
      }
    }
  }

  /** On the chain of `id`, the worker's assignment nearest the root is to this category. */
  ghost predicate NearestRoot(f: Forum, mods: Moderators, id: CategoryId, r: Assignment)
    requires AcyclicFrom(f, id)
  {
    var c := Chain(f, id);
    exists j :: 0 <= j < |c| && c[j] == r.0 && r.1 in AssignedTo(mods, c[j])
             && forall i :: j < i < |c| ==> r.1 !in AssignedTo(mods, c[i])
  }

  function Reversed<T>(s: seq<T>): (r: seq<T>)
    ensures |r| == |s| && forall i :: 0 <= i < |s| ==> r[i] == s[|s| - 1 - i]
  {
    seq(|s|, i requires 0 <= i < |s| => s[|s| - 1 - i])
  }

  lemma RootFirst(f: Forum, mods: Moderators, id: CategoryId, r: Assignment)
    requires AcyclicFrom(f, id) && FirstAssigned(mods, Reversed(Chain(f, id)), r)
    ensures NearestRoot(f, mods, id, r)
  {
    var c := Chain(f, id);
    var ids := Reversed(c);
    var j :| 0 <= j < |ids| && ids[j] == r.0 && r.1 in AssignedTo(mods, ids[j])
          && forall i :: 0 <= i < j ==> r.1 !in AssignedTo(mods, ids[i]);
    var k := |c| - 1 - j;
    assert c[k] == ids[j];
    forall i | k < i < |c| ensures r.1 !in AssignedTo(mods, c[i]) {
      assert c[i] == ids[|c| - 1 - i];
    }
  }

  /** `forumCategoryModerators`: root first, category last, first assignment of each worker. */
  method ForumCategoryModerators(f: Forum, mods: Moderators, id: CategoryId) returns (r: seq<Assignment>)
    requires AcyclicFrom(f, id)
    ensures OncePerWorker(r)
    ensures forall w :: Has(r, w) <==> HasAccess(f, mods, id, w)
    ensures forall k :: 0 <= k < |r| ==> NearestRoot(f, mods, id, r[k])
  {
    var ancestors := ForumCategoryAncestors(f, id);
    var ids := Reversed(seq(|ancestors|, i requires 0 <= i < |ancestors| => ancestors[i].0)) + [id];
    assert ids == Reversed(Chain(f, id));
    r := UniqueWorkers(Assignments(mods, ids));
    ModeratorsAreRight(f, mods, id);
  }

  lemma ModeratorsAreRight(f: Forum, mods: Moderators, id: CategoryId)
    requires AcyclicFrom(f, id)
    ensures var r := UniqueWorkers(Assignments(mods, Reversed(Chain(f, id))));
            && OncePerWorker(r)
            && (forall w :: Has(r, w) <==> HasAccess(f, mods, id, w))
            && (forall k :: 0 <= k < |r| ==> NearestRoot(f, mods, id, r[k]))
  {
    var chain := Chain(f, id);
    var ids := Reversed(chain);
    var r := UniqueWorkers(Assignments(mods, ids));
    UniqueWorkersKeepsEach(Assignments(mods, ids));
    forall w ensures Has(r, w) <==> HasAccess(f, mods, id, w) {
      AssignmentsHas(mods, ids, w);
      AccessInReverse(f, mods, id, w);
    }
    forall k | 0 <= k < |r| ensures NearestRoot(f, mods, id, r[k]) {
      KeptPairIsFirst(mods, ids, k);
      RootFirst(f, mods, id, r[k]);
    }
  }

  lemma AccessInReverse(f: Forum, mods: Moderators, id: CategoryId, w: WorkerId)
    requires AcyclicFrom(f, id)
    ensures var ids := Reversed(Chain(f, id));
            HasAccess(f, mods, id, w) <==> exists i :: 0 <= i < |ids| && w in AssignedTo(mods, ids[i])
  {
    var chain := Chain(f, id);
    var ids := Reversed(chain);
    if HasAccess(f, mods, id, w) {
      var x :| x in chain && x in mods && w in mods[x];
      var i :| 0 <= i < |chain| && chain[i] == x;
      assert ids[|chain| - 1 - i] == x;
    }
    if i :| 0 <= i < |ids| && w in AssignedTo(mods, ids[i]) {
      assert ids[i] in chain;
    }
  }

  // ---------------------------------------------------------------- access to several categories

  /** In how many of the lists the worker occurs. */
  function CountLists(lists: seq<seq<Assignment>>, w: WorkerId): nat {
    if lists == [] then 0
    else CountLists(lists[..|lists| - 1], w) + (if Has(lists[|lists| - 1], w) then 1 else 0)
  }

  lemma {:induction false} CountIsFullIff(lists: seq<seq<Assignment>>, w: WorkerId)
    ensures CountLists(lists, w) <= |lists|
    ensures CountLists(lists, w) == |lists| <==> forall i :: 0 <= i < |lists| ==> Has(lists[i], w)
    decreases |lists|
  {
    if lists == [] {
    } else {
      CountIsFullIff(lists[..|lists| - 1], w);
    }
  }

  function Lookup(counts: map<WorkerId, nat>, w: WorkerId): nat {
    if w in counts then counts[w] else 0
  }

  /** One list into the counts; `order` is the insertion order of the `Map`. Adding one per
      pair counts lists only because each list names a worker once. */
  method CountList(counts: map<WorkerId, nat>, order: seq<WorkerId>, list: seq<Assignment>)
    returns (counts': map<WorkerId, nat>, order': seq<WorkerId>)
    requires OncePerWorker(list)
    requires Distinct(order) && (forall w :: w in order <==> w in counts)
    ensures Distinct(order') && (forall w :: w in order' <==> w in counts')
    ensures forall w :: Lookup(counts', w) == Lookup(counts, w) + (if Has(list, w) then 1 else 0)
  {
    counts', order' := counts, order;
    for j := 0 to |list|
      invariant Distinct(order') && (forall w :: w in order' <==> w in counts')
      invariant forall w :: Lookup(counts', w) == Lookup(counts, w) + (if Has(list[..j], w) then 1 else 0)
    {
      var id := list[j].1;
      assert !Has(list[..j], id);
      HasPrefix(list, j);
      if id !in counts' {
        order' := order' + [id];
      }
      counts' := counts'[id := Lookup(counts', id) + 1];
    }
    assert list[..|list|] == list;
  }

  lemma HasPrefix(list: seq<Assignment>, j: nat)
    requires j < |list|
    ensures forall w :: Has(list[..j + 1], w) <==> Has(list[..j], w) || list[j].1 == w
  {
    forall w ensures Has(list[..j + 1], w) <==> Has(list[..j], w) || list[j].1 == w {
      if Has(list[..j], w) {
        var i :| 0 <= i < j && list[..j][i].1 == w;
        assert list[..j + 1][i].1 == w;
      }
      if list[j].1 == w {
        assert list[..j + 1][j].1 == w;
      }
      if Has(list[..j + 1], w) && list[j].1 != w {
        var i :| 0 <= i < j + 1 && list[..j + 1][i].1 == w;
        assert list[..j][i].1 == w;
      }
    }
  }

  method ModeratorsByCategory(f: Forum, mods: Moderators, categories: seq<CategoryId>)
    returns (lists: seq<seq<Assignment>>)
    requires forall i :: 0 <= i < |categories| ==> AcyclicFrom(f, categories[i])
    ensures |lists| == |categories|
    ensures forall j :: 0 <= j < |lists| ==> OncePerWorker(lists[j])
    ensures forall j :: 0 <= j < |lists| ==> forall w :: Has(lists[j], w) <==> HasAccess(f, mods, categories[j], w)
  {
    lists := [];
    for i := 0 to |categories|
      invariant |lists| == i
      invariant forall j :: 0 <= j < i ==> OncePerWorker(lists[j])
      invariant forall j :: 0 <= j < i ==> forall w :: Has(lists[j], w) <==> HasAccess(f, mods, categories[j], w)
    {
      var list := ForumCategoryModerators(f, mods, categories[i]);
      lists := lists + [list];
    }
  }

  method CountModerators(lists: seq<seq<Assignment>>) returns (counts: map<WorkerId, nat>, order: seq<WorkerId>)
    requires forall j :: 0 <= j < |lists| ==> OncePerWorker(lists[j])
    ensures Distinct(order) && (forall w :: w in order <==> w in counts)
    ensures forall w :: Lookup(counts, w) == CountLists(lists, w)
    ensures lists == [] ==> order == []
  {
    counts, order := map[], [];
    for i := 0 to |lists|
      invariant i == 0 ==> order == []
      invariant Distinct(order) && (forall w :: w in order <==> w in counts)
      invariant forall w :: Lookup(counts, w) == CountLists(lists[..i], w)
    {
      assert lists[..i + 1][..i] == lists[..i];
      counts, order := CountList(counts, order, lists[i]);
    }
    assert lists[..|lists|] == lists;
  }

  /** `getIdsOfModeratorsWithAccessToCategories`: exactly the workers with access to every
      listed category, each once; the empty list of categories has no moderators. */
  method GetIdsOfModeratorsWithAccessToCategories(f: Forum, mods: Moderators, categories: seq<CategoryId>)
    returns (r: seq<WorkerId>)
    requires forall i :: 0 <= i < |categories| ==> AcyclicFrom(f, categories[i])
    ensures Distinct(r)
    ensures categories != [] ==>
              forall w :: w in r <==> forall i :: 0 <= i < |categories| ==> HasAccess(f, mods, categories[i], w)
    ensures categories == [] ==> r == []
  {
    var lists := ModeratorsByCategory(f, mods, categories);
    var counts, order := CountModerators(lists);
    r := [];
    for i := 0 to |order|
      invariant Distinct(r) && |r| <= i && forall w :: w in r <==> w in order[..i] && counts[w] == |categories|
    {
      if counts[order[i]] == |categories| {
        r := r + [order[i]];
      }
    }
    assert order[..|order|] == order;
    forall w
      ensures categories != [] ==>
                (w in r <==> forall i :: 0 <= i < |categories| ==> HasAccess(f, mods, categories[i], w))
    {
      CountIsFullIff(lists, w);
      assert categories != [] ==> (w in r <==> Lookup(counts, w) == |categories|);
    }
  }
}
