/**
 * What deepGetOrCreateNode guarantees: it keeps the nodes it finds, creates
 * exactly the missing segment prefixes of the target path (typed from the
 * descriptors at their own paths), logs one Created record per new node from
 * the top down, and on success leaves every ancestor of the target in place.
 */
module WalkProperties {
  import opened Wrappers
  import opened Strings
  import opened Descriptors
  import opened Repository
  import opened NodeMaterializer

  /** The forward walk stands on the node at `nodePath` before index `from`, or is done at `path`. */
  predicate Walking(path: string, from: nat, nodePath: string) {
    (from == 0 && nodePath == path) || AtSegment(path, from, nodePath)
  }

  /** The segment read at `from` runs up to the next slash or to the end of the path. */
  lemma SegmentBounds(path: string, from: nat)
    requires 1 <= from <= |path|
    ensures
      var to := IndexOf(path, '/', from);
      var name := if to < 0 then path[from..] else path[from..to];
      var tmpPath := if to < 0 then path else path[..to];
      && |tmpPath| == from + |name| && tmpPath == path[..|tmpPath|] && SegmentEnd(path, |tmpPath|)
  {
    assert path[..|path|] == path;
  }

  /** The name read at `from` holds no slash. */
  lemma SegmentName(path: string, from: nat)
    requires 1 <= from <= |path|
    ensures
      var to := IndexOf(path, '/', from);
      var name := if to < 0 then path[from..] else path[from..to];
      forall i :: 0 <= i < |name| ==> name[i] != '/'
  {
    var to := IndexOf(path, '/', from);
    var name := if to < 0 then path[from..] else path[from..to];
    assert forall i :: 0 <= i < |name| ==> name[i] == path[from + i];
  }

  /** The child of the current node named by the segment is the cumulative path up to the segment's end. */
  lemma SegmentChildPath(path: string, from: nat, nodePath: string)
    requires AtSegment(path, from, nodePath)
    ensures
      var to := IndexOf(path, '/', from);
      var name := if to < 0 then path[from..] else path[from..to];
      var tmpPath := if to < 0 then path else path[..to];
      ChildPath(nodePath, name) == tmpPath
  {
    var to := IndexOf(path, '/', from);
    var name := if to < 0 then path[from..] else path[from..to];
    var tmpPath := if to < 0 then path else path[..to];
    SegmentBounds(path, from);
    if from == 1 {
      assert tmpPath == [path[0]] + name;
    } else {
      assert tmpPath == path[..from - 1] + [path[from - 1]] + name;
    }
  }

  /** After a nonempty segment the walk stands on its cumulative path, at the following slash or at the end. */
  lemma SegmentNext(path: string, from: nat)
    requires 1 <= from <= |path|
    ensures
      var to := IndexOf(path, '/', from);
      var name := if to < 0 then path[from..] else path[from..to];
      var tmpPath := if to < 0 then path else path[..to];
      name != "" ==> from < |tmpPath| && Walking(path, to + 1, tmpPath)
  {
    SegmentBounds(path, from);
  }

  /**
   * The segment the walk reads at `from`: its child path is the cumulative
   * path deepGetOrCreateNode computes, the name holds no slash, and the walk's next
   * position stands on that child.
   */
  lemma SegmentChild(path: string, from: nat, nodePath: string)
    requires AtSegment(path, from, nodePath)
    ensures
      var to := IndexOf(path, '/', from);
      var name := if to < 0 then path[from..] else path[from..to];
      var tmpPath := if to < 0 then path else path[..to];
      && ChildPath(nodePath, name) == tmpPath
      && (forall i :: 0 <= i < |name| ==> name[i] != '/')
      && from <= |tmpPath| && SegmentEnd(path, |tmpPath|) && tmpPath == path[..|tmpPath|]
      && (name != "" ==> from < |tmpPath| && Walking(path, to + 1, tmpPath))
  {
    SegmentBounds(path, from);
    SegmentName(path, from);
    SegmentChildPath(path, from, nodePath);
    SegmentNext(path, from);
  }

  /** `after` has every node of `before`, unchanged, and extends its modification list. */
  predicate Keeps(before: Workspace, after: Workspace) {
    && (forall k :: k in before.items ==> k in after.items && after.items[k] == before.items[k])
    && before.log <= after.log
  }

  /** The workspace a step of the walk leaves. */
  function Reached(m: Move): Workspace {
    match m
    case Stop(out) => out.ws
    case Go(_, _, ws) => ws
  }

  /** One step of the walk keeps every node it finds and only appends to the log. */
  lemma AdvanceKeeps(path: string, from: nat, nodePath: string, ws: Workspace, locked: set<string>,
                     props: map<string, RequestProperty>, cfg: VersioningConfiguration)
    requires 0 < from <= |path|
    ensures Keeps(ws, Reached(Advance(path, from, nodePath, ws, locked, props, cfg)))
  {
  }

  /** The walk never replaces or removes a node and never rewrites the modification list: no rollback on failure. */
  lemma {:induction false} ForwardKeepsNodes(path: string, from: nat, nodePath: string, ws: Workspace, locked: set<string>,
                                             props: map<string, RequestProperty>, cfg: VersioningConfiguration)
    requires from <= |path|
    ensures Keeps(ws, Forward(path, from, nodePath, ws, locked, props, cfg).ws)
    decreases if from == 0 then 0 else |path| + 1 - from
  {
    if from > 0 {
      var m := Advance(path, from, nodePath, ws, locked, props, cfg);
      AdvanceKeeps(path, from, nodePath, ws, locked, props, cfg);
      if m.Go? {
        ForwardKeepsNodes(path, m.next, m.nodePath, m.ws, locked, props, cfg);
      }
    }
  }

  /** Adding a child with a nonempty, slash-free name under an existing node keeps the store prefix-closed. */
  lemma AddChildClosed(items: map<string, Node>, parent: string, name: string, n: Node)
    requires PrefixClosed(items) && parent in items
    requires name != "" && forall i :: 0 <= i < |name| ==> name[i] != '/'
    ensures PrefixClosed(items[ChildPath(parent, name) := n])
  {
    var child := ChildPath(parent, name);
    var grown := items[child := n];
    forall p, k | p in grown && SegmentEnd(p, k)
      ensures p[..k] in grown
    {
      if p == child {
        assert forall i :: 0 <= i < |name| ==> p[|p| - |name| + i] == name[i];
        if parent != "/" && k < |parent| {
          assert p[..k] == parent[..k] && p[k] == parent[k];
        } else if parent != "/" && k == |parent| {
          assert p[..k] == parent;
        } else {
          assert p[..k] == p;
        }
      }
    }
  }

  /** The node at `k` has the primary type and the mixins the descriptors at `k` ask for. */
  predicate Typed(props: map<string, RequestProperty>, k: string, n: Node) {
    PrimaryType(props, k) == Ok(n.primaryType) && n.mixins == MixinSet(props, k)
  }

  /** Every node of `after` missing from `before` is a typed segment prefix of `path` ending after index `from`. */
  predicate Grown(path: string, from: nat, props: map<string, RequestProperty>, before: Workspace, after: Workspace) {
    forall k :: k in after.items && k !in before.items ==>
      from < |k| && SegmentEnd(path, |k|) && k == path[..|k|] && Typed(props, k, after.items[k])
  }

  /** Creating a child adds exactly that child, typed from its own descriptors, or nothing when it fails. */
  lemma CreateChildAdds(nodePath: string, name: string, tmpPath: string, ws: Workspace, locked: set<string>,
                        props: map<string, RequestProperty>, cfg: VersioningConfiguration)
    requires ChildPath(nodePath, name) == tmpPath
    ensures
      var c := CreateChild(nodePath, name, tmpPath, ws, locked, props, cfg);
      && (c.result.Ok? ==> c.result.value == tmpPath && tmpPath in c.ws.items
                           && c.ws.items == ws.items[tmpPath := c.ws.items[tmpPath]]
                           && Typed(props, tmpPath, c.ws.items[tmpPath]))
      && (c.result.Err? ==> c.ws.items == ws.items)
  {
  }

  /** Creating a child logs the parent's checkouts and then, when it succeeds, one Created record for the child. */
  lemma CreateChildLogs(nodePath: string, name: string, tmpPath: string, ws: Workspace, locked: set<string>,
                        props: map<string, RequestProperty>, cfg: VersioningConfiguration)
    requires ChildPath(nodePath, name) == tmpPath
    ensures
      var c := CreateChild(nodePath, name, tmpPath, ws, locked, props, cfg);
      && ws.log <= c.ws.log
      && CreatedPaths(c.ws.log[|ws.log|..]) == (if c.result.Ok? then [tmpPath] else [])
  {
    var c := CreateChild(nodePath, name, tmpPath, ws, locked, props, cfg);
    if PrimaryType(props, tmpPath).Ok? {
      var checkouts := CheckoutRecords(cfg.checkoutIfNecessary(nodePath));
      CheckoutsCreateNothing(cfg.checkoutIfNecessary(nodePath));
      if nodePath in locked {
        assert c.ws.log[|ws.log|..] == checkouts;
      } else {
        assert c.ws.log[|ws.log|..] == checkouts + [Created(tmpPath)];
        CreatedPathsAppend(checkouts, [Created(tmpPath)]);
      }
    } else {
      assert c.ws.log[|ws.log|..] == [];
    }
  }

  /** Creating the segment the walk reads grows the store only by that typed segment prefix. */
  lemma CreateSegmentGrows(path: string, from: nat, nodePath: string, ws: Workspace, locked: set<string>,
                           props: map<string, RequestProperty>, cfg: VersioningConfiguration)
    requires AtSegment(path, from, nodePath)
    ensures
      var to := IndexOf(path, '/', from);
      var name := if to < 0 then path[from..] else path[from..to];
      var tmpPath := if to < 0 then path else path[..to];
      name != "" ==> Grown(path, from, props, ws, CreateChild(nodePath, name, tmpPath, ws, locked, props, cfg).ws)
  {
    var to := IndexOf(path, '/', from);
    var name := if to < 0 then path[from..] else path[from..to];
    var tmpPath := if to < 0 then path else path[..to];
    SegmentChild(path, from, nodePath);
    CreateChildAdds(nodePath, name, tmpPath, ws, locked, props, cfg);
  }

  /** A step creates at most the segment it reads, typed from its own descriptors. */
  lemma AdvanceGrows(path: string, from: nat, nodePath: string, ws: Workspace, locked: set<string>,
                     props: map<string, RequestProperty>, cfg: VersioningConfiguration)
    requires AtSegment(path, from, nodePath)
    ensures Grown(path, from, props, ws, Reached(Advance(path, from, nodePath, ws, locked, props, cfg)))
  {
    CreateSegmentGrows(path, from, nodePath, ws, locked, props, cfg);
  }

  /** A step's Created records name exactly the nodes it added, at most one. */
  lemma AdvanceLogs(path: string, from: nat, nodePath: string, ws: Workspace, locked: set<string>,
                    props: map<string, RequestProperty>, cfg: VersioningConfiguration)
    requires AtSegment(path, from, nodePath)
    ensures ws.log <= Reached(Advance(path, from, nodePath, ws, locked, props, cfg)).log
    ensures
      var after := Reached(Advance(path, from, nodePath, ws, locked, props, cfg));
      var created := CreatedPaths(after.log[|ws.log|..]);
      && |created| <= 1
      && forall c :: c in created <==> c in after.items && c !in ws.items
  {
    var to := IndexOf(path, '/', from);
    var name := if to < 0 then path[from..] else path[from..to];
    var tmpPath := if to < 0 then path else path[..to];
    SegmentChild(path, from, nodePath);
    if name != "" && ChildPath(nodePath, name) !in ws.items {
      CreateChildAdds(nodePath, name, tmpPath, ws, locked, props, cfg);
      CreateChildLogs(nodePath, name, tmpPath, ws, locked, props, cfg);
    } else {
      assert ws.log[|ws.log|..] == [];
    }
  }

  /**
   * A step that goes on stands on an existing node at the walk's next
   * position, past everything it created; a step that stops has failed.
   */
  lemma AdvanceWalks(path: string, from: nat, nodePath: string, ws: Workspace, locked: set<string>,
                     props: map<string, RequestProperty>, cfg: VersioningConfiguration)
    requires AtSegment(path, from, nodePath)
    ensures
      var m := Advance(path, from, nodePath, ws, locked, props, cfg);
      && (m.Stop? ==> m.out.result.Err?)
      && (m.Go? ==> Walking(path, m.next, m.nodePath) && m.nodePath in m.ws.items)
      && (m.Go? && m.next > 0 ==> forall k :: k in m.ws.items && k !in ws.items ==> |k| < m.next)
  {
    var to := IndexOf(path, '/', from);
    var name := if to < 0 then path[from..] else path[from..to];
    var tmpPath := if to < 0 then path else path[..to];
    SegmentChild(path, from, nodePath);
    if name != "" && ChildPath(nodePath, name) !in ws.items {
      CreateChildAdds(nodePath, name, tmpPath, ws, locked, props, cfg);
    }
  }

  /** A step leaves the store as it was or adds the one child it reads. */
  lemma AdvanceStore(path: string, from: nat, nodePath: string, ws: Workspace, locked: set<string>,
                     props: map<string, RequestProperty>, cfg: VersioningConfiguration)
    requires AtSegment(path, from, nodePath)
    ensures
      var to := IndexOf(path, '/', from);
      var name := if to < 0 then path[from..] else path[from..to];
      var tmpPath := if to < 0 then path else path[..to];
      var after := Reached(Advance(path, from, nodePath, ws, locked, props, cfg)).items;
      after == ws.items || (name != "" && tmpPath in after && after == ws.items[tmpPath := after[tmpPath]])
  {
    var to := IndexOf(path, '/', from);
    var name := if to < 0 then path[from..] else path[from..to];
    var tmpPath := if to < 0 then path else path[..to];
    var m := Advance(path, from, nodePath, ws, locked, props, cfg);
    if name != "" && ChildPath(nodePath, name) !in ws.items {
      SegmentChildPath(path, from, nodePath);
      var c := CreateChild(nodePath, name, tmpPath, ws, locked, props, cfg);
      CreateChildAdds(nodePath, name, tmpPath, ws, locked, props, cfg);
      assert Reached(m) == c.ws;
    } else {
      assert Reached(m) == ws;
    }
  }

  /** A step from an existing node keeps the store prefix-closed. */
  lemma AdvanceClosed(path: string, from: nat, nodePath: string, ws: Workspace, locked: set<string>,
                      props: map<string, RequestProperty>, cfg: VersioningConfiguration)
    requires AtSegment(path, from, nodePath) && nodePath in ws.items && PrefixClosed(ws.items)
    ensures PrefixClosed(Reached(Advance(path, from, nodePath, ws, locked, props, cfg)).items)
  {
    var to := IndexOf(path, '/', from);
    var name := if to < 0 then path[from..] else path[from..to];
    var tmpPath := if to < 0 then path else path[..to];
    var after := Reached(Advance(path, from, nodePath, ws, locked, props, cfg)).items;
    AdvanceStore(path, from, nodePath, ws, locked, props, cfg);
    if after != ws.items {
      SegmentName(path, from);
      SegmentChildPath(path, from, nodePath);
      AddChildClosed(ws.items, nodePath, name, after[tmpPath]);
    }
  }

  /** The walk from `from` creates only typed segment prefixes of `path` ending after index `from`. */
  lemma {:induction false} ForwardGrows(path: string, from: nat, nodePath: string, ws: Workspace, locked: set<string>,
                                        props: map<string, RequestProperty>, cfg: VersioningConfiguration)
    requires from <= |path| && Walking(path, from, nodePath)
    ensures Grown(path, from, props, ws, Forward(path, from, nodePath, ws, locked, props, cfg).ws)
    decreases if from == 0 then 0 else |path| + 1 - from
  {
    if from > 0 {
      var m := Advance(path, from, nodePath, ws, locked, props, cfg);
      AdvanceGrows(path, from, nodePath, ws, locked, props, cfg);
      AdvanceWalks(path, from, nodePath, ws, locked, props, cfg);
      if m.Go? {
        ForwardGrows(path, m.next, m.nodePath, m.ws, locked, props, cfg);
        ForwardKeepsNodes(path, m.next, m.nodePath, m.ws, locked, props, cfg);
      }
    }
  }

  /** The Created records `after` appends to the log of `before` name exactly the nodes it added. */
  ghost predicate LogsCreations(before: Workspace, after: Workspace) {
    before.log <= after.log
    && forall c :: c in CreatedPaths(after.log[|before.log|..]) <==> c in after.items && c !in before.items
  }

  /** Paths that all end at or after index `from`, each strictly longer than the one before. */
  predicate Descending(created: seq<string>, from: nat) {
    && (forall i :: 0 <= i < |created| ==> from <= |created[i]|)
    && (forall i, j :: 0 <= i < j < |created| ==> |created[i]| < |created[j]|)
  }

  lemma LogsCreationsCompose(a: Workspace, b: Workspace, c: Workspace)
    requires LogsCreations(a, b) && LogsCreations(b, c) && Keeps(a, b) && Keeps(b, c)
    ensures LogsCreations(a, c)
  {
    var first := b.log[|a.log|..];
    var rest := c.log[|b.log|..];
    assert c.log[|a.log|..] == first + rest;
    CreatedPathsAppend(first, rest);
    forall p
      ensures p in CreatedPaths(c.log[|a.log|..]) <==> p in c.items && p !in a.items
    {
      assert p in CreatedPaths(first) <==> p in b.items && p !in a.items;
      assert p in CreatedPaths(rest) <==> p in c.items && p !in b.items;
    }
  }

  lemma DescendingConcat(a: seq<string>, b: seq<string>, from: nat, next: nat)
    requires Descending(b, next)
    requires from <= next && |a| <= 1 && forall i :: 0 <= i < |a| ==> from <= |a[i]| < next
    ensures Descending(a + b, from)
  {
    forall i, j | 0 <= i < j < |a + b|
      ensures |(a + b)[i]| < |(a + b)[j]|
    {
      if i >= |a| {
        assert (a + b)[i] == b[i - |a|] && (a + b)[j] == b[j - |a|];
      } else {
        assert (a + b)[i] == a[i] && (a + b)[j] == b[j - |a|];
      }
    }
    forall i | 0 <= i < |a + b|
      ensures from <= |(a + b)[i]|
    {
      if i >= |a| {
        assert (a + b)[i] == b[i - |a|];
      } else {
        assert (a + b)[i] == a[i];
      }
    }
  }

  /** The Created records the walk appends name exactly the nodes it created. */
  lemma {:induction false} ForwardLogs(path: string, from: nat, nodePath: string, ws: Workspace, locked: set<string>,
                                       props: map<string, RequestProperty>, cfg: VersioningConfiguration)
    requires from <= |path| && Walking(path, from, nodePath)
    ensures LogsCreations(ws, Forward(path, from, nodePath, ws, locked, props, cfg).ws)
    decreases if from == 0 then 0 else |path| + 1 - from
  {
    if from == 0 {
      assert ws.log[|ws.log|..] == [];
    } else {
      var m := Advance(path, from, nodePath, ws, locked, props, cfg);
      AdvanceLogs(path, from, nodePath, ws, locked, props, cfg);
      AdvanceWalks(path, from, nodePath, ws, locked, props, cfg);
      AdvanceKeeps(path, from, nodePath, ws, locked, props, cfg);
      if m.Go? {
        ForwardLogs(path, m.next, m.nodePath, m.ws, locked, props, cfg);
        ForwardKeepsNodes(path, m.next, m.nodePath, m.ws, locked, props, cfg);
        LogsCreationsCompose(ws, m.ws, Forward(path, m.next, m.nodePath, m.ws, locked, props, cfg).ws);
      }
    }
  }

  /** What a step logs as created ends at or after `from`, and before the position the walk goes on at. */
  lemma AdvanceCreatedBounds(path: string, from: nat, nodePath: string, ws: Workspace, locked: set<string>,
                             props: map<string, RequestProperty>, cfg: VersioningConfiguration)
    requires AtSegment(path, from, nodePath)
    ensures ws.log <= Reached(Advance(path, from, nodePath, ws, locked, props, cfg)).log
    ensures
      var m := Advance(path, from, nodePath, ws, locked, props, cfg);
      var created := CreatedPaths(Reached(m).log[|ws.log|..]);
      && |created| <= 1
      && forall i :: 0 <= i < |created| ==> from <= |created[i]| && (m.Go? && m.next > 0 ==> |created[i]| < m.next)
  {
    AdvanceLogs(path, from, nodePath, ws, locked, props, cfg);
    AdvanceWalks(path, from, nodePath, ws, locked, props, cfg);
    AdvanceGrows(path, from, nodePath, ws, locked, props, cfg);
  }

  /** The walk's Created records are in order once the rest of the walk's are. */
  lemma AdvanceInOrder(path: string, from: nat, nodePath: string, ws: Workspace, locked: set<string>,
                       props: map<string, RequestProperty>, cfg: VersioningConfiguration)
    requires AtSegment(path, from, nodePath)
    requires
      var m := Advance(path, from, nodePath, ws, locked, props, cfg);
      m.Go? ==>
        var after := Forward(path, m.next, m.nodePath, m.ws, locked, props, cfg).ws;
        m.ws.log <= after.log && Descending(CreatedPaths(after.log[|m.ws.log|..]), m.next)
    ensures ws.log <= Forward(path, from, nodePath, ws, locked, props, cfg).ws.log
    ensures
      var after := Forward(path, from, nodePath, ws, locked, props, cfg).ws;
      Descending(CreatedPaths(after.log[|ws.log|..]), from)
  {
    var m := Advance(path, from, nodePath, ws, locked, props, cfg);
    AdvanceCreatedBounds(path, from, nodePath, ws, locked, props, cfg);
    if m.Go? {
      var after := Forward(path, m.next, m.nodePath, m.ws, locked, props, cfg).ws;
      var first := m.ws.log[|ws.log|..];
      var rest := after.log[|m.ws.log|..];
      assert after.log[|ws.log|..] == first + rest;
      if m.next == 0 {
        assert rest == [];
        assert first + rest == first;
      } else {
        CreatedPathsAppend(first, rest);
        DescendingConcat(CreatedPaths(first), CreatedPaths(rest), from, m.next);
      }
    }
  }

  /** The walk logs its Created records parents first: their paths grow strictly longer, from index `from` on. */
  lemma {:induction false} ForwardLogsInOrder(path: string, from: nat, nodePath: string, ws: Workspace, locked: set<string>,
                                              props: map<string, RequestProperty>, cfg: VersioningConfiguration)
    requires from <= |path| && Walking(path, from, nodePath)
    ensures ws.log <= Forward(path, from, nodePath, ws, locked, props, cfg).ws.log
    ensures
      var after := Forward(path, from, nodePath, ws, locked, props, cfg).ws;
      Descending(CreatedPaths(after.log[|ws.log|..]), from)
    decreases if from == 0 then 0 else |path| + 1 - from
  {
    if from == 0 {
      assert ws.log[|ws.log|..] == [];
    } else {
      var m := Advance(path, from, nodePath, ws, locked, props, cfg);
      AdvanceWalks(path, from, nodePath, ws, locked, props, cfg);
      if m.Go? {
        ForwardLogsInOrder(path, m.next, m.nodePath, m.ws, locked, props, cfg);
      }
      AdvanceInOrder(path, from, nodePath, ws, locked, props, cfg);
    }
  }

  /** A walk from an existing node that succeeds returns `path`, which then exists. */
  lemma {:induction false} ForwardSucceeds(path: string, from: nat, nodePath: string, ws: Workspace, locked: set<string>,
                                           props: map<string, RequestProperty>, cfg: VersioningConfiguration)
    requires from <= |path| && Walking(path, from, nodePath) && nodePath in ws.items
    ensures
      var o := Forward(path, from, nodePath, ws, locked, props, cfg);
      o.result.Ok? ==> o.result.value == path && path in o.ws.items
    decreases if from == 0 then 0 else |path| + 1 - from
  {
    if from > 0 {
      var m := Advance(path, from, nodePath, ws, locked, props, cfg);
      AdvanceWalks(path, from, nodePath, ws, locked, props, cfg);
      if m.Go? {
        ForwardSucceeds(path, m.next, m.nodePath, m.ws, locked, props, cfg);
      }
    }
  }

  /** A walk from an existing node keeps the store prefix-closed, whether it succeeds or fails. */
  lemma {:induction false} ForwardClosed(path: string, from: nat, nodePath: string, ws: Workspace, locked: set<string>,
                                         props: map<string, RequestProperty>, cfg: VersioningConfiguration)
    requires from <= |path| && Walking(path, from, nodePath) && nodePath in ws.items && PrefixClosed(ws.items)
    ensures PrefixClosed(Forward(path, from, nodePath, ws, locked, props, cfg).ws.items)
    decreases if from == 0 then 0 else |path| + 1 - from
  {
    if from > 0 {
      var m := Advance(path, from, nodePath, ws, locked, props, cfg);
      AdvanceWalks(path, from, nodePath, ws, locked, props, cfg);
      AdvanceClosed(path, from, nodePath, ws, locked, props, cfg);
      if m.Go? {
        ForwardClosed(path, m.next, m.nodePath, m.ws, locked, props, cfg);
      }
    }
  }

  /** The starting node of an absolute path that exists is the path itself. */
  lemma AscendExisting(items: map<string, Node>, path: string)
    requires StartsWith(path, "/") && path in items
    ensures Ascend(items, path) == path
  {
    assert path[..|path|] == path;
  }

  /** An absolute path that already exists is returned as is, and nothing changes. */
  lemma DeepGetOrCreateExisting(path: string, ws: Workspace, locked: set<string>,
                                props: map<string, RequestProperty>, cfg: VersioningConfiguration)
    requires StartsWith(path, "/") && path in ws.items
    ensures DeepGetOrCreate(path, ws, locked, props, cfg) == Outcome(ws, Ok(path))
  {
    AscendExisting(ws.items, path);
  }

  /**
   * deepGetOrCreateNode keeps every node it finds and only appends to the
   * modification list, even when it fails; a relative path changes nothing.
   */
  lemma DeepGetOrCreateKeeps(path: string, ws: Workspace, locked: set<string>,
                             props: map<string, RequestProperty>, cfg: VersioningConfiguration)
    ensures Keeps(ws, DeepGetOrCreate(path, ws, locked, props, cfg).ws)
    ensures !StartsWith(path, "/") ==> DeepGetOrCreate(path, ws, locked, props, cfg) == Outcome(ws, Err(IllegalArgument))
  {
    if StartsWith(path, "/") && |Ascend(ws.items, path)| != |path| {
      StartFits(ws.items, path);
      var start := Ascend(ws.items, path);
      ForwardKeepsNodes(path, FirstSegment(start), start, ws, locked, props, cfg);
    }
  }

  /**
   * The nodes deepGetOrCreateNode creates are segment prefixes of the target
   * path below its deepest existing ancestor, each typed from the descriptors
   * at its own path.
   */
  lemma DeepGetOrCreateGrows(path: string, ws: Workspace, locked: set<string>,
                             props: map<string, RequestProperty>, cfg: VersioningConfiguration)
    requires StartsWith(path, "/")
    ensures
      var after := DeepGetOrCreate(path, ws, locked, props, cfg).ws;
      forall k :: k in after.items && k !in ws.items ==>
        |Ascend(ws.items, path)| < |k| && SegmentEnd(path, |k|) && k == path[..|k|] && Typed(props, k, after.items[k])
  {
    var start := Ascend(ws.items, path);
    if |start| != |path| {
      StartFits(ws.items, path);
      ForwardGrows(path, FirstSegment(start), start, ws, locked, props, cfg);
    }
  }

  /** deepGetOrCreateNode logs one Created record per node it creates, parents first. */
  lemma DeepGetOrCreateLogs(path: string, ws: Workspace, locked: set<string>,
                            props: map<string, RequestProperty>, cfg: VersioningConfiguration)
    ensures LogsCreations(ws, DeepGetOrCreate(path, ws, locked, props, cfg).ws)
    ensures
      var after := DeepGetOrCreate(path, ws, locked, props, cfg).ws;
      Descending(CreatedPaths(after.log[|ws.log|..]), 0)
  {
    if StartsWith(path, "/") && |Ascend(ws.items, path)| != |path| {
      StartFits(ws.items, path);
      var start := Ascend(ws.items, path);
      ForwardLogs(path, FirstSegment(start), start, ws, locked, props, cfg);
      ForwardLogsInOrder(path, FirstSegment(start), start, ws, locked, props, cfg);
    } else {
      assert ws.log[|ws.log|..] == [];
    }
  }

  /**
   * In a prefix-closed store deepGetOrCreateNode keeps the store
   * prefix-closed, and when it succeeds it returns the target path, which
   * then exists together with all its ancestors.
   */
  lemma DeepGetOrCreateSucceeds(path: string, ws: Workspace, locked: set<string>,
                                props: map<string, RequestProperty>, cfg: VersioningConfiguration)
    requires PrefixClosed(ws.items)
    ensures
      var o := DeepGetOrCreate(path, ws, locked, props, cfg);
      && PrefixClosed(o.ws.items)
      && (o.result.Ok? ==> o.result.value == path && forall k :: SegmentEnd(path, k) ==> path[..k] in o.ws.items)
  {
    var o := DeepGetOrCreate(path, ws, locked, props, cfg);
    if StartsWith(path, "/") {
      var start := Ascend(ws.items, path);
      if |start| != |path| {
        StartFits(ws.items, path);
        ForwardSucceeds(path, FirstSegment(start), start, ws, locked, props, cfg);
        ForwardClosed(path, FirstSegment(start), start, ws, locked, props, cfg);
      } else {
        assert start == path[..|start|] == path;
      }
      if o.result.Ok? {
        assert path in o.ws.items;
      }
    }
  }

  /**
   * When the parent of a missing absolute path exists (the root for a
   * top-level path), deepGetOrCreateNode
   * creates at most the path itself, and logs exactly one Created record for
   * it when it does.
   */
  lemma DeepCreateLeaf(path: string, ws: Workspace, locked: set<string>,
                       props: map<string, RequestProperty>, cfg: VersioningConfiguration)
    requires StartsWith(path, "/") && path !in ws.items
    requires (if LastIndexOf(path, '/') > 0 then path[..LastIndexOf(path, '/')] else "/") in ws.items
    ensures
      var after := DeepGetOrCreate(path, ws, locked, props, cfg).ws;
      && (forall p :: p in after.items && p !in ws.items ==> p == path)
      && ws.log <= after.log
      && CreatedPaths(after.log[|ws.log|..]) == (if path in after.items then [path] else [])
  {
    var parent := LastIndexOf(path, '/');
    var start := Ascend(ws.items, path);
    if parent > 0 {
      assert SegmentEnd(path, parent);
      assert parent <= |start|;
    }
    var after := DeepGetOrCreate(path, ws, locked, props, cfg).ws;
    DeepGetOrCreateGrows(path, ws, locked, props, cfg);
    DeepGetOrCreateLogs(path, ws, locked, props, cfg);
    forall p | p in after.items && p !in ws.items
      ensures p == path
    {
      assert |p| == |path|;
      assert p == path[..|path|] == path;
    }
    var created := CreatedPaths(after.log[|ws.log|..]);
    assert forall i :: 0 <= i < |created| ==> created[i] in created && created[i] == path;
    if |created| > 0 {
      DescendingSpread(created, 0);
    }
    if path in after.items {
      assert path in created;
    }
  }

  /** Strictly growing lengths spread out: the last path is longer than the first by at least the count less one. */
  lemma {:induction false} DescendingSpread(created: seq<string>, from: nat)
    requires Descending(created, from) && |created| > 0
    ensures |created[0]| + |created| - 1 <= |created[|created| - 1]|
    decreases |created|
  {
    if |created| > 1 {
      var front := created[..|created| - 1];
      assert forall i :: 0 <= i < |front| ==> front[i] == created[i];
      DescendingSpread(front, from);
      assert |front[|front| - 1]| < |created[|created| - 1]|;
    }
  }
}
