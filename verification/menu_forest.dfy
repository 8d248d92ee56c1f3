/** permission.go: MenuTree assembles the forest of live menus from one ordered list, in place. */
module MenuForest {
  import opened Wrappers
  import opened Text
  import opened Sorting
  import opened PolicyModel
  import opened Tables
  import opened Rbac

  datatype Menu = Menu(id: Uuid, row: MenuRow)

  // ---- the ordered list --------------------------------------------------------------------

  type MenuKey = (int, string, Uuid)

  /** ORDER BY sort_order, name, id. */
  predicate MenuLe(a: MenuKey, b: MenuKey) {
    if a.0 != b.0 then a.0 < b.0 else if a.1 != b.1 then LexLe(a.1, b.1) else a.2 <= b.2
  }

  lemma MenuOrder()
    ensures TotalOrder(MenuLe)
  {
    LexOrder();
    hide LexLe;
  }

  function KeyOf(m: Menu): MenuKey {
    (m.row.sort, m.row.name, m.id)
  }

  predicate Before(a: Menu, b: Menu) {
    KeyOf(a) != KeyOf(b) && MenuLe(KeyOf(a), KeyOf(b))
  }

  function MenuKeys(t: Tables, scope: string): set<MenuKey> {
    set m | m in t.menus && LiveMenu(t, m) && t.menus[m].scope == scope :: (t.menus[m].sort, t.menus[m].name, m)
  }

  /** Each live menu of the scope once, by sort order, name and id. */
  ghost predicate ListsMenus(t: Tables, scope: string, list: seq<Menu>) {
    && (forall m :: m in list <==> LiveMenu(t, m.id) && t.menus[m.id].scope == scope && m.row == t.menus[m.id])
    && InOrder(list) && UniqueIDs(list)
  }

  ghost predicate InOrder(list: seq<Menu>) {
    forall i, j :: 0 <= i < j < |list| ==> Before(list[i], list[j])
  }

  ghost predicate UniqueIDs(list: seq<Menu>) {
    forall i, j :: 0 <= i < j < |list| ==> list[i].id != list[j].id
  }

  predicate Listed(list: seq<Menu>, id: Uuid) {
    exists i :: 0 <= i < |list| && list[i].id == id
  }

  /** Some menu's parent is not in the list. */
  predicate Orphaned(list: seq<Menu>) {
    exists i :: 0 <= i < |list| && list[i].row.parent.Some? && !Listed(list, list[i].row.parent.value)
  }

  class MenuRepository {
    const pool: Database

    constructor (pool: Database)
      ensures this.pool == pool
    {
      this.pool := pool;
    }

    method ListByServiceResource(scope: string) returns (list: seq<Menu>)
      ensures ListsMenus(pool.State(), scope, list)
    {
      ghost var t := pool.State();
      MenuOrder();
      var keys := RowsInOrder(MenuKeys(pool.State(), scope), MenuLe);
      SortSetOnce(MenuKeys(t, scope), MenuLe);
      list := [];
      for i := 0 to |keys|
        invariant |list| == i
        invariant forall j :: 0 <= j < i ==>
                    list[j].id == keys[j].2 && keys[j].2 in t.menus && list[j].row == t.menus[keys[j].2]
      {
        assert keys[i] in MenuKeys(t, scope);
        list := list + [Menu(keys[i].2, pool.menus[keys[i].2])];
      }
      KeysList(t, scope, keys, list);
    }

    /** SoftDelete: refused while any live row names the menu as its parent. */
    method SoftDelete(id: Uuid) returns (error: Option<Error>)
      modifies pool
      ensures var t := old(pool.State());
              if !LiveMenu(t, id) then error == Some(NotFound) && pool.State() == t
              else if HasLiveChild(t, id) then error == Some(Conflict) && pool.State() == t
              else error.None? && pool.State() == MenuSoftDeleted(t, id)
    {
      hide HasLiveChild;
      if id !in pool.menus || pool.menus[id].deleted {
        return Some(NotFound);
      }
      if HasLiveChild(pool.State(), id) {
        return Some(Conflict);
      }
      pool.menus := pool.menus[id := pool.menus[id].(deleted := true, enabled := false)];
      pool.roleMenus := map k | k in pool.roleMenus ::
          if k.1 == id && pool.roleMenus[k] then false else pool.roleMenus[k];
      return None;
    }
  }

  lemma KeysList(t: Tables, scope: string, keys: seq<MenuKey>, list: seq<Menu>)
    requires forall k :: k in keys <==> k in MenuKeys(t, scope)
    requires NoDuplicates(keys) && Ordered(keys, MenuLe)
    requires |list| == |keys|
    requires forall j :: 0 <= j < |keys| ==>
               list[j].id == keys[j].2 && keys[j].2 in t.menus && list[j].row == t.menus[keys[j].2]
    ensures ListsMenus(t, scope, list)
  {
    hide MenuLe;
    forall j | 0 <= j < |keys|
      ensures KeyOf(list[j]) == keys[j] && LiveMenu(t, list[j].id) && t.menus[list[j].id].scope == scope
    {
      assert keys[j] in keys;
    }
    forall i, j | 0 <= i < j < |list| ensures list[i].id != list[j].id && Before(list[i], list[j]) {
      assert keys[i] != keys[j];
    }
    forall m: Menu | LiveMenu(t, m.id) && t.menus[m.id].scope == scope && m.row == t.menus[m.id] ensures m in list {
      assert KeyOf(m) in keys;
      var j :| 0 <= j < |keys| && keys[j] == KeyOf(m);
      assert list[j] == m;
    }
  }

  // ---- the forest as values ----------------------------------------------------------------

  /** The menus of the list under one parent, in list order. */
  function ChildrenOf(list: seq<Menu>, parent: Option<Uuid>): seq<Menu> {
    if list == [] then []
    else
      var front, last := ChildrenOf(list[..|list| - 1], parent), list[|list| - 1];
      if last.row.parent == parent then front + [last] else front
  }

  lemma {:induction false} ChildrenExact(list: seq<Menu>, parent: Option<Uuid>)
    ensures forall m :: m in ChildrenOf(list, parent) <==> m in list && m.row.parent == parent
    ensures UniqueIDs(list) ==> UniqueIDs(ChildrenOf(list, parent))
    ensures InOrder(list) ==> InOrder(ChildrenOf(list, parent))
  {
    hide Before, UniqueIDs, InOrder;
    if list == [] {
      NothingSplits();
    } else {
      var front, last := list[..|list| - 1], list[|list| - 1];
      assert list == front + [last];
      ChildrenExact(front, parent);
      SplitLast(front, last);
      SplitLast(ChildrenOf(front, parent), last);
    }
  }

  lemma NothingSplits()
    ensures UniqueIDs([]) && InOrder([])
  {
  }

  lemma SplitLast(front: seq<Menu>, last: Menu)
    ensures UniqueIDs(front + [last]) <==> UniqueIDs(front) && forall m <- front :: m.id != last.id
    ensures InOrder(front + [last]) <==> InOrder(front) && forall m <- front :: Before(m, last)
  {
    hide Before;
    var list := front + [last];
    assert list[|front|] == last && forall i :: 0 <= i < |front| ==> list[i] == front[i] && front[i] in front;
    forall m | m in front ensures exists i :: 0 <= i < |front| && list[i] == m && list[|front|] == last {
      var i :| 0 <= i < |front| && front[i] == m;
      assert list[i] == m;
    }
  }

  /** The siblings a path ends among: the roots, or the children of the menu one step up. */
  function Siblings(list: seq<Menu>, path: seq<nat>): seq<Menu>
    requires path != []
    decreases |path|, 0
  {
    if |path| == 1 then ChildrenOf(list, None)
    else
      var above := At(list, path[..|path| - 1]);
      if above.None? then [] else ChildrenOf(list, Some(above.value.id))
  }

  /** The menu reached by following child positions from the roots. */
  function At(list: seq<Menu>, path: seq<nat>): Option<Menu>
    decreases |path|, 1
  {
    if path == [] then None
    else
      var siblings, last := Siblings(list, path), path[|path| - 1];
      if last < |siblings| then Some(siblings[last]) else None
  }

  /** A menu sits under its own parent, and roots have none. */
  lemma UnderItsParent(list: seq<Menu>, path: seq<nat>)
    requires At(list, path).Some?
    ensures path != [] && At(list, path).value in list
    ensures |path| > 1 ==> At(list, path[..|path| - 1]).Some?
    ensures At(list, path).value.row.parent ==
            if |path| == 1 then None else Some(At(list, path[..|path| - 1]).value.id)
  {
    var siblings, last := Siblings(list, path), path[|path| - 1];
    assert siblings[last] in siblings;
    if |path| == 1 {
      ChildrenExact(list, None);
    } else {
      var above := At(list, path[..|path| - 1]);
      if above.Some? {
        ChildrenExact(list, Some(above.value.id));
      }
    }
  }

  lemma SiblingsUnique(list: seq<Menu>, path: seq<nat>)
    requires path != [] && UniqueIDs(list)
    ensures UniqueIDs(Siblings(list, path))
  {
    hide ChildrenOf, UniqueIDs;
    if |path| == 1 {
      ChildrenExact(list, None);
    } else {
      assert UniqueIDs([]) by { NothingSplits(); }
      var above := At(list, path[..|path| - 1]);
      if above.Some? {
        ChildrenExact(list, Some(above.value.id));
      }
    }
  }

  /** No menu is reached along two paths. */
  lemma {:induction false} OnePathOnly(list: seq<Menu>, p: seq<nat>, q: seq<nat>)
    requires UniqueIDs(list)
    requires At(list, p).Some? && At(list, q).Some? && At(list, p).value.id == At(list, q).value.id
    ensures p == q
    decreases |p|
  {
    hide Siblings, ChildrenOf;
    UnderItsParent(list, p);
    UnderItsParent(list, q);
    SameID(list, At(list, p).value, At(list, q).value);
    var front, front' := p[..|p| - 1], q[..|q| - 1];
    if |p| > 1 {
      OnePathOnly(list, front, front');
    }
    SamePlace(list, p, q);
    assert p == front + [p[|p| - 1]] && q == front' + [q[|q| - 1]];
  }

  lemma SamePlace(list: seq<Menu>, p: seq<nat>, q: seq<nat>)
    requires UniqueIDs(list) && p != [] && q != [] && p[..|p| - 1] == q[..|q| - 1]
    requires At(list, p).Some? && At(list, q).Some? && At(list, p).value.id == At(list, q).value.id
    ensures p[|p| - 1] == q[|q| - 1]
  {
    hide ChildrenOf;
    SiblingsUnique(list, p);
    assert |p| == |q| && Siblings(list, p) == Siblings(list, q);
  }

  lemma SameID(list: seq<Menu>, a: Menu, b: Menu)
    requires UniqueIDs(list) && a in list && b in list && a.id == b.id
    ensures a == b
  {
  }

  /** A ranking of the list that grows from parent to child. */
  ghost predicate RankedList(list: seq<Menu>, rank: map<Uuid, nat>) {
    forall m <- list ::
      && m.id in rank
      && (m.row.parent.Some? && m.row.parent.value in rank ==> rank[m.row.parent.value] < rank[m.id])
  }

  /** Every menu of a ranked list without orphans is reached. */
  lemma {:induction false} SomePath(list: seq<Menu>, rank: map<Uuid, nat>, m: Menu) returns (path: seq<nat>)
    requires RankedList(list, rank) && !Orphaned(list) && m in list && UniqueIDs(list)
    ensures At(list, path) == Some(m)
    decreases rank[m.id]
  {
    hide ChildrenOf;
    ChildrenExact(list, m.row.parent);
    var place :| 0 <= place < |ChildrenOf(list, m.row.parent)| && ChildrenOf(list, m.row.parent)[place] == m;
    if m.row.parent.None? {
      path := [place];
    } else {
      var i :| 0 <= i < |list| && list[i] == m;
      assert Listed(list, list[i].row.parent.value);
      var k :| 0 <= k < |list| && list[k].id == m.row.parent.value;
      assert list[k] in list;
      var above := SomePath(list, rank, list[k]);
      path := above + [place];
      assert path[..|path| - 1] == above && |path| > 1;
    }
  }

  ghost predicate Reached(list: seq<Menu>, m: Menu) {
    exists path :: At(list, path) == Some(m)
  }

  /**
   * A list without orphans: every menu is reached exactly when the parent relation can be ranked, that is,
   * when it has no cycle. A cycle would make MenuTree drop its menus without an error.
   */
  lemma {:induction false} ReachedExactlyWhenRanked(list: seq<Menu>)
    requires UniqueIDs(list) && !Orphaned(list)
    ensures (forall m <- list :: Reached(list, m)) <==> exists rank :: RankedList(list, rank)
  {
    if rank :| RankedList(list, rank) {
      forall m | m in list ensures Reached(list, m) {
        var path := SomePath(list, rank, m);
      }
    }
    if forall m <- list :: Reached(list, m) {
      RankByDepth(list);
    }
  }

  ghost function Depth(list: seq<Menu>, m: Menu): nat
    requires Reached(list, m)
  {
    var path :| At(list, path) == Some(m);
    |path|
  }

  ghost function ByID(list: seq<Menu>, id: Uuid): Menu
    requires Listed(list, id)
    ensures ByID(list, id) in list && ByID(list, id).id == id
  {
    var i :| 0 <= i < |list| && list[i].id == id;
    list[i]
  }

  lemma RankByDepth(list: seq<Menu>)
    requires UniqueIDs(list) && forall m <- list :: Reached(list, m)
    ensures exists rank :: RankedList(list, rank)
  {
    hide At, Orphaned, Reached;
    var ids := set i | 0 <= i < |list| :: list[i].id;
    forall id | id in ids ensures Listed(list, id) {}
    var rank := map id | id in ids :: Depth(list, ByID(list, id));
    forall m | m in list
      ensures m.id in rank
      ensures m.row.parent.Some? && m.row.parent.value in rank ==> rank[m.row.parent.value] < rank[m.id]
    {
      SameID(list, m, ByID(list, m.id));
      if m.row.parent.Some? && m.row.parent.value in rank {
        DeeperThanParent(list, m, ByID(list, m.row.parent.value));
      }
    }
    assert RankedList(list, rank);
  }

  lemma DeeperThanParent(list: seq<Menu>, m: Menu, parent: Menu)
    requires UniqueIDs(list) && m in list && parent in list && m.row.parent == Some(parent.id)
    requires Reached(list, m) && Reached(list, parent)
    ensures Depth(list, parent) < Depth(list, m)
  {
    hide At;
    var p :| At(list, p) == Some(m) && |p| == Depth(list, m);
    var q :| At(list, q) == Some(parent) && |q| == Depth(list, parent);
    UnderItsParent(list, p);
    OnePathOnly(list, p[..|p| - 1], q);
  }

  // ---- the forest as objects ---------------------------------------------------------------

  class MenuTreeNode {
    const menu: Menu
    var children: seq<MenuTreeNode>

    constructor (menu: Menu)
      ensures this.menu == menu && children == []
    {
      this.menu := menu;
      children := [];
    }
  }

  ghost predicate Mirrors(nodes: map<Uuid, MenuTreeNode>, objects: seq<MenuTreeNode>, menus: seq<Menu>) {
    |objects| == |menus| && forall i :: 0 <= i < |menus| ==> menus[i].id in nodes && objects[i] == nodes[menus[i].id]
  }

  /** One node for each menu; the roots and every node's children are the lists of the forest. */
  ghost predicate Shows(list: seq<Menu>, nodes: map<Uuid, MenuTreeNode>, roots: seq<MenuTreeNode>)
    reads nodes.Values
  {
    && (forall m <- list :: m.id in nodes && nodes[m.id].menu == m)
    && Mirrors(nodes, roots, ChildrenOf(list, None))
    && (forall m <- list :: Mirrors(nodes, nodes[m.id].children, ChildrenOf(list, Some(m.id))))
  }

  /** The node reached by following child positions in the objects. */
  ghost function Descend(roots: seq<MenuTreeNode>, path: seq<nat>): Option<MenuTreeNode>
    reads *
    decreases |path|
  {
    if path == [] then None
    else
      var above := Descend(roots, path[..|path| - 1]);
      var siblings := if |path| == 1 then roots else if above.None? then [] else above.value.children;
      if path[|path| - 1] < |siblings| then Some(siblings[path[|path| - 1]]) else None
  }

  lemma {:induction false} ObjectsFollowValues(
      list: seq<Menu>, nodes: map<Uuid, MenuTreeNode>, roots: seq<MenuTreeNode>, path: seq<nat>)
    requires Shows(list, nodes, roots)
    ensures Descend(roots, path).Some? <==> At(list, path).Some?
    ensures At(list, path).Some? ==>
              var m := At(list, path).value;
              m in list && m.id in nodes && Descend(roots, path) == Some(nodes[m.id]) && nodes[m.id].menu == m
    decreases |path|
  {
    hide ChildrenOf;
    if path != [] {
      ObjectsFollowValues(list, nodes, roots, path[..|path| - 1]);
      if At(list, path).Some? {
        UnderItsParent(list, path);
      }
    }
  }

  ghost predicate LeadsTo(roots: seq<MenuTreeNode>, path: seq<nat>, m: Menu)
    reads *
  {
    Descend(roots, path).Some? && Descend(roots, path).value.menu == m
  }

  /** Each menu of the list is at exactly one place, and there is nothing else. */
  ghost predicate HoldsEachOnce(roots: seq<MenuTreeNode>, list: seq<Menu>)
    reads *
  {
    && (forall m <- list :: exists path :: LeadsTo(roots, path, m))
    && (forall m, p, q | LeadsTo(roots, p, m) && LeadsTo(roots, q, m) :: p == q)
    && (forall p | Descend(roots, p).Some? :: Descend(roots, p).value.menu in list)
  }

  /** Each node sits under its own parent's node; its siblings follow the list order; buttons have no children. */
  ghost predicate WellPlaced(roots: seq<MenuTreeNode>)
    reads *
  {
    forall p | Descend(roots, p).Some? ::
      var node := Descend(roots, p).value;
      && (|p| == 1 ==> node.menu.row.parent == None)
      && (|p| > 1 ==> Descend(roots, p[..|p| - 1]).Some?
                      && node.menu.row.parent == Some(Descend(roots, p[..|p| - 1]).value.menu.id))
      && ChildrenInOrder(node.children)
      && (node.menu.row.menuType.ButtonNode? ==> node.children == [])
  }

  ghost predicate ChildrenInOrder(children: seq<MenuTreeNode>) {
    forall i, j :: 0 <= i < j < |children| ==> Before(children[i].menu, children[j].menu)
  }

  lemma ShownOnce(list: seq<Menu>, nodes: map<Uuid, MenuTreeNode>, roots: seq<MenuTreeNode>, rank: map<Uuid, nat>)
    requires Shows(list, nodes, roots) && UniqueIDs(list) && !Orphaned(list) && RankedList(list, rank)
    ensures HoldsEachOnce(roots, list)
  {
    hide Shows, At, Descend, UniqueIDs, Orphaned, RankedList;
    forall m | m in list ensures exists path :: LeadsTo(roots, path, m) {
      var path := SomePath(list, rank, m);
      ObjectsFollowValues(list, nodes, roots, path);
      assert LeadsTo(roots, path, m);
    }
    forall m, p, q | LeadsTo(roots, p, m) && LeadsTo(roots, q, m) ensures p == q {
      ObjectsFollowValues(list, nodes, roots, p);
      ObjectsFollowValues(list, nodes, roots, q);
      OnePathOnly(list, p, q);
    }
    forall p | Descend(roots, p).Some? ensures Descend(roots, p).value.menu in list {
      ObjectsFollowValues(list, nodes, roots, p);
    }
  }

  /** Parents are menus, never buttons. */
  ghost predicate ParentsAreMenus(list: seq<Menu>) {
    forall m <- list, p <- list :: m.row.parent == Some(p.id) ==> p.row.menuType.MenuNode?
  }

  lemma ShownChildren(list: seq<Menu>, nodes: map<Uuid, MenuTreeNode>, roots: seq<MenuTreeNode>, m: Menu)
    requires Shows(list, nodes, roots) && InOrder(list) && ParentsAreMenus(list) && m in list
    ensures ChildrenInOrder(nodes[m.id].children)
    ensures m.row.menuType.ButtonNode? ==> nodes[m.id].children == []
  {
    hide ChildrenOf, Before;
    ChildrenExact(list, Some(m.id));
    var children, objects := ChildrenOf(list, Some(m.id)), nodes[m.id].children;
    forall i | 0 <= i < |children|
      ensures children[i] in list && objects[i].menu == children[i] && m.row.menuType.MenuNode?
    {
      assert children[i] in children;
    }
    assert |children| > 0 ==> children[0] in list;
  }

  lemma ShownWellPlaced(list: seq<Menu>, nodes: map<Uuid, MenuTreeNode>, roots: seq<MenuTreeNode>)
    requires Shows(list, nodes, roots) && InOrder(list) && ParentsAreMenus(list)
    ensures WellPlaced(roots) && ChildrenInOrder(roots)
  {
    ShownRoots(list, nodes, roots);
    hide Shows, InOrder, ParentsAreMenus, At, Descend, ChildrenInOrder;
    forall p | Descend(roots, p).Some?
      ensures var node := Descend(roots, p).value;
              && (|p| == 1 ==> node.menu.row.parent == None)
              && (|p| > 1 ==> Descend(roots, p[..|p| - 1]).Some?
                              && node.menu.row.parent == Some(Descend(roots, p[..|p| - 1]).value.menu.id))
              && ChildrenInOrder(node.children)
              && (node.menu.row.menuType.ButtonNode? ==> node.children == [])
    {
      ObjectsFollowValues(list, nodes, roots, p);
      UnderItsParent(list, p);
      if |p| > 1 {
        ObjectsFollowValues(list, nodes, roots, p[..|p| - 1]);
      }
      ShownChildren(list, nodes, roots, At(list, p).value);
    }
  }

  lemma ShownRoots(list: seq<Menu>, nodes: map<Uuid, MenuTreeNode>, roots: seq<MenuTreeNode>)
    requires Shows(list, nodes, roots) && InOrder(list)
    ensures ChildrenInOrder(roots)
  {
    hide ChildrenOf, Before;
    ChildrenExact(list, None);
    var top := ChildrenOf(list, None);
    forall i | 0 <= i < |top| ensures top[i] in list && roots[i].menu == top[i] {
      assert top[i] in top;
    }
  }

  /** What every run keeps makes the list of any scope closed, ranked, and free of button parents. */
  lemma InvariantList(t: Tables, scope: string, list: seq<Menu>)
    requires RbacInv(t) && ListsMenus(t, scope, list)
    ensures !Orphaned(list) && ParentsAreMenus(list)
    ensures exists rank :: RankedList(list, rank)
  {
    forall i | 0 <= i < |list| && list[i].row.parent.Some? ensures Listed(list, list[i].row.parent.value) {
      assert list[i] in list;
      var p := list[i].row.parent.value;
      assert LiveMenu(t, p) && t.menus[p].scope == scope;
      assert Menu(p, t.menus[p]) in list;
    }
    var rank :| Ranked(t, rank);
    assert RankedList(list, rank);
  }

  ghost predicate MenuForestOf(t: Tables, scope: string, roots: seq<MenuTreeNode>)
    reads *
  {
    exists list :: ListsMenus(t, scope, list) && HoldsEachOnce(roots, list) && WellPlaced(roots)
        && ChildrenInOrder(roots)
  }

  lemma ShownForest(t: Tables, scope: string, list: seq<Menu>, nodes: map<Uuid, MenuTreeNode>, roots: seq<MenuTreeNode>)
    requires RbacInv(t) && ListsMenus(t, scope, list) && Shows(list, nodes, roots)
    ensures MenuForestOf(t, scope, roots)
  {
    InvariantList(t, scope, list);
    var rank :| RankedList(list, rank);
    assert UniqueIDs(list) && InOrder(list);
    hide RbacInv, Shows, HoldsEachOnce, WellPlaced, ChildrenInOrder, UniqueIDs, InOrder, ListsMenus, Orphaned,
      ParentsAreMenus, RankedList;
    ShownOnce(list, nodes, roots, rank);
    ShownWellPlaced(list, nodes, roots);
  }

  // ---- the service -------------------------------------------------------------------------

  class MenuService {
    const menus: MenuRepository

    constructor (menus: MenuRepository)
      ensures this.menus == menus
    {
      this.menus := menus;
    }

    /**
     * MenuTree: conflicts exactly when a live menu of the scope has its parent elsewhere. Over every run
     * of the transactions it never conflicts, and each live menu is in the forest exactly once.
     */
    method MenuTree(scope: string) returns (result: Result<seq<MenuTreeNode>, Error>)
      ensures ValidScope(scope).Failure? ==> result == Failure(InvalidArgument)
      ensures ValidScope(scope).Success? ==>
                exists list :: ListsMenus(menus.pool.State(), Trim(scope), list)
                  && (if Orphaned(list) then result == Failure(Conflict) else result.Success?)
      ensures ValidScope(scope).Success? && RbacInv(menus.pool.State()) ==>
                result.Success? && MenuForestOf(menus.pool.State(), Trim(scope), result.value)
    {
      hide RbacInv, Trim, Shows, MenuForestOf, ListsMenus, Orphaned;
      var s := ValidScope(scope);
      if s.Failure? {
        return Failure(s.error);
      }
      ghost var t := menus.pool.State();
      var list := menus.ListByServiceResource(s.value);
      ghost var nodes;
      ListIsUnique(t, s.value, list);
      result, nodes := Assemble(list);
      if RbacInv(t) {
        InvariantList(t, s.value, list);
        ShownForest(t, s.value, list, nodes, result.value);
      }
    }

    method Assemble(list: seq<Menu>)
      returns (result: Result<seq<MenuTreeNode>, Error>, ghost made: map<Uuid, MenuTreeNode>)
      requires UniqueIDs(list)
      ensures if Orphaned(list) then result == Failure(Conflict)
              else result.Success? && Shows(list, made, result.value)
    {
      hide Listed, Orphaned, Shows;
      var nodes := MakeNodes(list);
      made := nodes;
      Injective(list, nodes);
      result := Link(list, nodes);
    }

    /** The first loop: a fresh node for each menu. */
    method MakeNodes(list: seq<Menu>) returns (nodes: map<Uuid, MenuTreeNode>)
      requires UniqueIDs(list)
      ensures forall id <- nodes :: fresh(nodes[id]) && nodes[id].children == []
      ensures forall id :: id in nodes <==> Listed(list, id)
      ensures forall j :: 0 <= j < |list| ==> list[j].id in nodes && nodes[list[j].id].menu == list[j]
    {
      nodes := map[];
      for i := 0 to |list|
        invariant forall id <- nodes :: fresh(nodes[id]) && nodes[id].children == []
        invariant forall id :: id in nodes <==> Listed(list[..i], id)
        invariant forall j :: 0 <= j < i ==> list[j].id in nodes && nodes[list[j].id].menu == list[j]
      {
        ListedMore(list, i);
        var node := new MenuTreeNode(list[i]);
        nodes := nodes[list[i].id := node];
      }
      assert list[..|list|] == list;
    }

    /** The second loop: each node is appended to the roots or to its parent's children. */
    method Link(list: seq<Menu>, nodes: map<Uuid, MenuTreeNode>) returns (result: Result<seq<MenuTreeNode>, Error>)
      requires forall id :: id in nodes <==> Listed(list, id)
      requires forall m <- list :: m.id in nodes && nodes[m.id].menu == m
      requires forall id <- nodes :: nodes[id].children == [] && nodes[id].menu.id == id
      modifies nodes.Values
      ensures if Orphaned(list) then result == Failure(Conflict)
              else result.Success? && Shows(list, nodes, result.value)
    {
      hide ChildrenOf, Listed, Linked, Mirrors;
      var roots: seq<MenuTreeNode> := [];
      NothingLinked(list, nodes);
      for i := 0 to |list|
        invariant forall j :: 0 <= j < i && list[j].row.parent.Some? ==> list[j].row.parent.value in nodes
        invariant Linked(list[..i], nodes, roots)
      {
        if list[i].row.parent.None? {
          RootLinked(list, i, nodes, roots);
          roots := roots + [nodes[list[i].id]];
        } else {
          if list[i].row.parent.value !in nodes {
            return Failure(Conflict);
          }
          AppendChild(list, i, nodes, roots);
        }
      }
      assert list[..|list|] == list;
      LinkedShows(list, nodes, roots);
      return Success(roots);
    }

    /** parent.Children = append(parent.Children, node). */
    method AppendChild(list: seq<Menu>, i: nat, nodes: map<Uuid, MenuTreeNode>, ghost roots: seq<MenuTreeNode>)
      requires i < |list| && list[i].id in nodes && list[i].row.parent.Some? && list[i].row.parent.value in nodes
      requires forall id <- nodes :: nodes[id].menu.id == id
      requires Linked(list[..i], nodes, roots)
      modifies nodes.Values
      ensures Linked(list[..i + 1], nodes, roots)
    {
      hide ChildrenOf;
      ChildrenMore(list, i);
      var parent := nodes[list[i].row.parent.value];
      parent.children := parent.children + [nodes[list[i].id]];
      assert forall id <- nodes :: id != list[i].row.parent.value ==> nodes[id] != parent;
    }

    /** validateMenu: the argument is rewritten field by field. */
    method ValidateMenu(menu: MenuRow) returns (result: Result<MenuRow, Error>)
      ensures result == ValidMenu(menu)
    {
      hide Trim, Blank, ByteLength, Upper;
      var row := menu;
      var names := ValidCodeAndName(row.code, row.name);
      if names.Failure? {
        return Failure(names.error);
      }
      row := row.(code := names.value.0, name := names.value.1);
      if row.menuType == ButtonNode && row.parent.None? {
        return Failure(InvalidArgument);
      }
      row := row.(apiPath := Trim(row.apiPath));
      row := row.(httpMethod := Upper(Trim(row.httpMethod)));
      if row.menuType == MenuNode && (row.apiPath != "" || row.httpMethod != "") {
        return Failure(InvalidArgument);
      }
      if row.menuType == ButtonNode && row.apiPath == "" {
        return Failure(InvalidArgument);
      }
      if row.menuType == ButtonNode && row.httpMethod == "" {
        row := row.(httpMethod := "GET");
      }
      if row.menuType == ButtonNode
         && row.httpMethod !in {"GET", "POST", "PUT", "PATCH", "DELETE", "HEAD", "OPTIONS"}
      {
        return Failure(InvalidArgument);
      }
      return Success(row);
    }

    /** CreateMenu, with the parent trigger and the keys of the insert; `id` is the given or generated id. */
    method CreateMenu(id: Uuid, menu: MenuRow) returns (error: Option<Error>)
      modifies menus.pool`menus
      ensures var r := Rbac.CreateMenu(old(menus.pool.State()), id, menu);
              if r.Success? then error.None? && menus.pool.State() == r.value
              else error == Some(r.error) && menus.pool.State() == old(menus.pool.State())
    {
      hide Trim, Blank, ByteLength, Upper, MenuCodeTaken, ValidMenu;
      var pool := menus.pool;
      var s := ValidScope(menu.scope);
      if s.Failure? {
        return Some(s.error);
      }
      if s.value !in pool.catalog {
        return Some(NotFound);
      }
      if !pool.catalog[s.value] {
        return Some(Conflict);
      }
      var row := menu.(scope := s.value);
      ValidMenuKeeps(row);
      var checked := ValidateMenu(row);
      if checked.Failure? {
        return Some(checked.error);
      }
      row := checked.value;
      if row.parent.Some? {
        var parentID := row.parent.value;
        if parentID !in pool.menus || pool.menus[parentID].deleted {
          return Some(NotFound);
        }
        var parent := pool.menus[parentID];
        if parent.scope != s.value || parent.menuType != MenuNode || !parent.enabled {
          return Some(Conflict);
        }
        if parentID == id {
          return Some(Conflict);
        }
      }
      if row.sort < 0 {
        return Some(Conflict);
      }
      if id in pool.menus || MenuCodeTaken(pool.State(), id, row.scope, row.code) {
        return Some(AlreadyExists);
      }
      row := row.(enabled := true, deleted := false);
      pool.menus := pool.menus[id := row];
      return None;
    }

    /** UpdateMenu: scope, parent and type are taken over from the stored row. */
    method UpdateMenu(id: Uuid, menu: MenuRow) returns (error: Option<Error>)
      modifies menus.pool`menus
      ensures var r := Rbac.UpdateMenu(old(menus.pool.State()), id, menu);
              if r.Success? then error.None? && menus.pool.State() == r.value
              else error == Some(r.error) && menus.pool.State() == old(menus.pool.State())
    {
      hide Trim, Blank, ByteLength, Upper, MenuCodeTaken, ValidMenu;
      var pool := menus.pool;
      if id == NIL_UUID {
        return Some(InvalidArgument);
      }
      if id !in pool.menus || pool.menus[id].deleted {
        return Some(NotFound);
      }
      var existing := pool.menus[id];
      if existing.scope !in pool.catalog {
        return Some(NotFound);
      }
      if !pool.catalog[existing.scope] {
        return Some(Conflict);
      }
      var updated := menu.(scope := existing.scope, parent := existing.parent, menuType := existing.menuType);
      ValidMenuKeeps(updated);
      var checked := ValidateMenu(updated);
      if checked.Failure? {
        return Some(checked.error);
      }
      if checked.value.sort < 0 {
        return Some(Conflict);
      }
      if MenuCodeTaken(pool.State(), id, existing.scope, checked.value.code) {
        return Some(AlreadyExists);
      }
      pool.menus := pool.menus[id := checked.value.(deleted := false)];
      return None;
    }

    /** DeleteMenu: the service looks for children in the scope's list, the repository in the whole table. */
    method DeleteMenu(id: Uuid) returns (error: Option<Error>)
      modifies menus.pool
      ensures var r := Rbac.DeleteMenu(old(menus.pool.State()), id);
              if r.Success? then error.None? && menus.pool.State() == r.value
              else error == Some(r.error) && menus.pool.State() == old(menus.pool.State())
    {
      hide ListsMenus, MenuSoftDeleted, HasLiveChild;
      if id == NIL_UUID {
        return Some(InvalidArgument);
      }
      if id !in menus.pool.menus || menus.pool.menus[id].deleted {
        return Some(NotFound);
      }
      var list := menus.ListByServiceResource(menus.pool.menus[id].scope);
      for i := 0 to |list| {
        if list[i].row.parent.Some? && list[i].id != id && list[i].row.parent.value == id {
          ListedChild(menus.pool.State(), menus.pool.menus[id].scope, list, list[i], id);
          return Some(Conflict);
        }
      }
      error := menus.SoftDelete(id);
    }
  }

  /** What the second loop has built from the menus seen so far. */
  ghost predicate Linked(seen: seq<Menu>, nodes: map<Uuid, MenuTreeNode>, roots: seq<MenuTreeNode>)
    reads nodes.Values
  {
    && Mirrors(nodes, roots, ChildrenOf(seen, None))
    && forall id <- nodes :: Mirrors(nodes, nodes[id].children, ChildrenOf(seen, Some(id)))
  }

  lemma NothingLinked(list: seq<Menu>, nodes: map<Uuid, MenuTreeNode>)
    requires forall id <- nodes :: nodes[id].children == []
    ensures Linked(list[..0], nodes, [])
  {
  }

  lemma RootLinked(list: seq<Menu>, i: nat, nodes: map<Uuid, MenuTreeNode>, roots: seq<MenuTreeNode>)
    requires i < |list| && list[i].id in nodes && list[i].row.parent.None? && Linked(list[..i], nodes, roots)
    ensures Linked(list[..i + 1], nodes, roots + [nodes[list[i].id]])
  {
    hide ChildrenOf;
    ChildrenMore(list, i);
  }

  lemma LinkedShows(list: seq<Menu>, nodes: map<Uuid, MenuTreeNode>, roots: seq<MenuTreeNode>)
    requires Linked(list, nodes, roots) && forall m <- list :: m.id in nodes && nodes[m.id].menu == m
    ensures Shows(list, nodes, roots)
  {
  }

  lemma ListedChild(t: Tables, scope: string, list: seq<Menu>, child: Menu, id: Uuid)
    requires ListsMenus(t, scope, list) && child in list && child.row.parent == Some(id)
    ensures HasLiveChild(t, id)
  {
  }

  /** Validation leaves scope, parent, type and sort order alone. */
  lemma ValidMenuKeeps(row: MenuRow)
    ensures ValidMenu(row).Success? ==>
              var v := ValidMenu(row).value;
              v.scope == row.scope && v.parent == row.parent && v.menuType == row.menuType && v.sort == row.sort
  {
    hide Trim, Upper, ValidCodeAndName;
  }

  lemma ListIsUnique(t: Tables, scope: string, list: seq<Menu>)
    requires ListsMenus(t, scope, list)
    ensures UniqueIDs(list)
  {
  }

  lemma Injective(list: seq<Menu>, nodes: map<Uuid, MenuTreeNode>)
    requires forall id :: id in nodes <==> Listed(list, id)
    requires forall j :: 0 <= j < |list| ==> list[j].id in nodes && nodes[list[j].id].menu == list[j]
    ensures forall id <- nodes :: nodes[id].menu.id == id
    ensures forall m <- list :: m.id in nodes && nodes[m.id].menu == m
  {
    forall id | id in nodes ensures nodes[id].menu.id == id {
      assert Listed(list, id);
    }
  }

  lemma ListedMore(list: seq<Menu>, i: nat)
    requires i < |list|
    ensures forall id :: Listed(list[..i + 1], id) <==> Listed(list[..i], id) || id == list[i].id
    ensures UniqueIDs(list) ==> !Listed(list[..i], list[i].id)
  {
    var now, was := list[..i + 1], list[..i];
    forall id ensures Listed(now, id) <==> Listed(was, id) || id == list[i].id {
      if Listed(was, id) {
        var j :| 0 <= j < |was| && was[j].id == id;
        assert now[j].id == id;
      }
      assert now[i] == list[i];
      if Listed(now, id) {
        var j :| 0 <= j < |now| && now[j].id == id;
        if j < i {
          assert was[j].id == id;
        }
      }
    }
  }

  lemma ChildrenMore(list: seq<Menu>, i: nat)
    requires i < |list|
    ensures forall p :: ChildrenOf(list[..i + 1], p) ==
                        if list[i].row.parent == p then ChildrenOf(list[..i], p) + [list[i]]
                        else ChildrenOf(list[..i], p)
  {
    assert list[..i + 1][..i] == list[..i];
  }

  // ---- acyclicity over runs ----------------------------------------------------------------

  /** The ancestor n steps up, following live rows. */
  ghost function Ancestor(t: Tables, m: Uuid, n: nat): Option<Uuid>
    decreases n
  {
    if !LiveMenu(t, m) then None
    else if n == 0 then Some(m)
    else if t.menus[m].parent.None? then None
    else Ancestor(t, t.menus[m].parent.value, n - 1)
  }

  lemma {:induction false} AncestorsRankLower(t: Tables, rank: map<Uuid, nat>, m: Uuid, n: nat)
    requires ParentsClosed(t) && Ranked(t, rank) && LiveMenu(t, m) && Ancestor(t, m, n).Some?
    ensures Ancestor(t, m, n).value in rank && m in rank && rank[Ancestor(t, m, n).value] + n <= rank[m]
    decreases n
  {
    if n > 0 {
      AncestorsRankLower(t, rank, t.menus[m].parent.value, n - 1);
    }
  }

  /** In every state a run reaches, no live menu is its own ancestor, and every chain of parents ends at a live root. */
  lemma NoCycleOverRuns(t: Tables, steps: seq<Step>, m: Uuid, n: nat)
    requires RbacInv(t) && n > 0
    ensures LiveMenu(Run(t, steps), m) ==> Ancestor(Run(t, steps), m, n) != Some(m)
  {
    RunKeeps(t, steps);
    var t' := Run(t, steps);
    hide Run;
    if LiveMenu(t', m) && Ancestor(t', m, n) == Some(m) {
      var rank :| Ranked(t', rank);
      AncestorsRankLower(t', rank, m, n);
    }
  }
}
