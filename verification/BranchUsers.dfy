/**
 The users of a branch: the root and everyone below it, found breadth first over
 the parent links.
 */
module BranchUsers {
  import opened Basics

  type UserId = nat

  datatype User = User(id: UserId, parentId: Option<UserId>)

  function ChildIds(users: seq<User>, parent: UserId): seq<UserId> {
    if users == [] then []
    else (if users[0].parentId == Some(parent) then [users[0].id] else []) + ChildIds(users[1..], parent)
  }

  ghost predicate IsChild(users: seq<User>, parent: UserId, child: UserId) {
    exists i :: 0 <= i < |users| && users[i] == User(child, Some(parent))
  }

  /** A way down the links: every next user has the one before as parent. */
  ghost predicate Descent(users: seq<User>, path: seq<UserId>) {
    path != [] && forall i | 0 < i < |path| :: IsChild(users, path[i - 1], path[i])
  }

  ghost predicate Below(users: seq<User>, root: UserId, u: UserId) {
    exists path :: Descent(users, path) && path[0] == root && path[|path| - 1] == u
  }

  lemma {:induction false} ChildIdsExactly(users: seq<User>, parent: UserId)
    ensures forall c :: c in ChildIds(users, parent) <==> IsChild(users, parent, c)
  {
    if users != [] {
      ChildIdsExactly(users[1..], parent);
      forall c
        ensures IsChild(users, parent, c) <==> IsChild(users[1..], parent, c) || users[0] == User(c, Some(parent))
      {
        if i :| 0 <= i < |users[1..]| && users[1..][i] == User(c, Some(parent)) {
          assert users[i + 1] == User(c, Some(parent));
        }
      }
    }
  }

  lemma {:induction false} ChildIdsPush(users: seq<User>, u: User, parent: UserId)
    ensures ChildIds(users + [u], parent) == ChildIds(users, parent) + if u.parentId == Some(parent) then [u.id] else []
  {
    if users == [] {
      assert [u][1..] == [];
    } else {
      assert (users + [u])[1..] == users[1..] + [u];
      ChildIdsPush(users[1..], u, parent);
      var head := if users[0].parentId == Some(parent) then [users[0].id] else [];
      var last := if u.parentId == Some(parent) then [u.id] else [];
      assert head + (ChildIds(users[1..], parent) + last) == head + ChildIds(users[1..], parent) + last;
    }
  }

  /** The map holds each parent's children in the order they are listed. */
  method GroupByParent(users: seq<User>) returns (children: map<UserId, seq<UserId>>)
    ensures forall p :: (if p in children then children[p] else []) == ChildIds(users, p)
  {
    children := map[];
    for i := 0 to |users|
      invariant forall p :: (if p in children then children[p] else []) == ChildIds(users[..i], p)
    {
      var user := users[i];
      assert users[..i + 1] == users[..i] + [user];
      forall p {
        ChildIdsPush(users[..i], user, p);
      }
      if user.parentId == None {
        continue;
      }
      var parent := user.parentId.value;
      if parent !in children {
        children := children[parent := []];
      }
      children := children[parent := children[parent] + [user.id]];
    }
    assert users[..|users|] == users;
  }

  ghost predicate Distinct(ids: seq<UserId>) {
    forall i, j | 0 <= i < j < |ids| :: ids[i] != ids[j]
  }

  function Ids(users: seq<User>): set<UserId> {
    set i | 0 <= i < |users| :: users[i].id
  }

  /** The search so far: everyone seen is in the branch, is waiting in the queue or
      has all children seen; `seen` keeps the order of discovery. */
  ghost predicate Searching(users: seq<User>, root: UserId, seen: seq<UserId>, queue: seq<UserId>,
                            current: seq<UserId>) {
    && seen != [] && seen[0] == root && Distinct(seen)
    && (forall i | 0 <= i < |seen| :: Below(users, root, seen[i]) && seen[i] in Ids(users) + {root})
    && (forall i | 0 <= i < |queue| :: queue[i] in seen)
    && forall p, c | p in seen && p !in queue && p !in current && IsChild(users, p, c) :: c in seen
  }

  lemma StartSearch(users: seq<User>, root: UserId)
    ensures Searching(users, root, [root], [root], [])
  {
    assert Descent(users, [root]);
  }

  lemma ChildIsBelow(users: seq<User>, root: UserId, parent: UserId, child: UserId)
    requires Below(users, root, parent) && IsChild(users, parent, child)
    ensures Below(users, root, child) && child in Ids(users)
  {
    var path :| Descent(users, path) && path[0] == root && path[|path| - 1] == parent;
    assert Descent(users, path + [child]);
  }

  /** All that is below the root has been seen once the queue is empty. */
  lemma {:induction false} SearchIsComplete(users: seq<User>, root: UserId, seen: seq<UserId>, path: seq<UserId>)
    requires Searching(users, root, seen, [], [])
    requires Descent(users, path) && path[0] == root
    ensures path[|path| - 1] in seen
  {
    if |path| > 1 {
      var front := path[..|path| - 1];
      assert Descent(users, front);
      SearchIsComplete(users, root, seen, front);
      assert IsChild(users, path[|path| - 2], path[|path| - 1]);
    }
  }

  lemma SeenBound(users: seq<User>, root: UserId, seen: seq<UserId>)
    requires Distinct(seen) && forall i | 0 <= i < |seen| :: seen[i] in Ids(users) + {root}
    ensures |seen| <= |Ids(users) + {root}|
  {
    var s := set i | 0 <= i < |seen| :: seen[i];
    DistinctSize(seen);
    assert s <= Ids(users) + {root};
    SubsetSize(s, Ids(users) + {root});
  }

  lemma {:induction false} DistinctSize(ids: seq<UserId>)
    requires Distinct(ids)
    ensures |set i | 0 <= i < |ids| :: ids[i]| == |ids|
  {
    var s := set i | 0 <= i < |ids| :: ids[i];
    if ids != [] {
      var front, last := ids[..|ids| - 1], ids[|ids| - 1];
      var t := set i | 0 <= i < |front| :: front[i];
      DistinctSize(front);
      assert s == t + {last};
    }
  }

  lemma {:induction false} SubsetSize(s: set<UserId>, t: set<UserId>)
    requires s <= t
    ensures |s| <= |t|
  {
    if s != {} {
      var x :| x in s;
      SubsetSize(s - {x}, t - {x});
    }
  }

  /** The children of one user are all seen and queued, each once. */
  method VisitChildren(users: seq<User>, root: UserId, current: UserId, childIds: seq<UserId>, seen0: seq<UserId>,
                       queue0: seq<UserId>)
    returns (seen: seq<UserId>, queue: seq<UserId>)
    requires Searching(users, root, seen0, queue0, [current]) && current in seen0
    requires childIds == ChildIds(users, current)
    ensures Searching(users, root, seen, queue, [])
    ensures |seen| - |queue| == |seen0| - |queue0|
  {
    seen, queue := seen0, queue0;
    ChildIdsExactly(users, current);
    for i := 0 to |childIds|
      invariant Searching(users, root, seen, queue, [current]) && current in seen
      invariant |seen| - |queue| == |seen0| - |queue0|
      invariant forall j | 0 <= j < i :: childIds[j] in seen
    {
      var childId := childIds[i];
      if childId in seen {
        continue;
      }
      ChildIsBelow(users, root, current, childId);
      seen, queue := seen + [childId], queue + [childId];
    }
  }

  /** The result is exactly the branch, each user once; a cycle in the links does
      no harm. */
  method GetBranchUserIds(users: seq<User>, root: UserId) returns (ids: seq<UserId>)
    ensures Distinct(ids)
    ensures forall u :: u in ids <==> Below(users, root, u)
  {
    var children := GroupByParent(users);
    var seen, queue := [root], [root];
    StartSearch(users, root);
    while queue != []
      invariant Searching(users, root, seen, queue, [])
      invariant |queue| <= |seen|
      decreases |Ids(users) + {root}| - (|seen| - |queue|)
    {
      var current := queue[0];
      queue := queue[1..];
      var childIds := if current in children then children[current] else [];
      SeenBound(users, root, seen);
      seen, queue := VisitChildren(users, root, current, childIds, seen, queue);
    }
    forall u | Below(users, root, u)
      ensures u in seen
    {
      var path :| Descent(users, path) && path[0] == root && path[|path| - 1] == u;
      SearchIsComplete(users, root, seen, path);
    }
    ids := seen;
  }
}
