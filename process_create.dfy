/**
 * processCreate: create the request's target node with its missing ancestors
 * when it does not exist yet, or else bring its mixins in line with the
 * `jcr:mixinTypes` descriptor at its path.
 */
module CreateOperation {
  import opened Wrappers
  import opened Strings
  import opened Descriptors
  import opened Repository
  import opened NodeMaterializer
  import opened WalkProperties

  /** The state after processCreate, and whether the request created the node (or what it threw). */
  datatype Response = Response(ws: Workspace, createRequest: Result<bool, Error>)

  /**
   * The mixin reconciliation of an existing node at `path`: the node is
   * checked out, the node ends up with exactly the requested mixins, and
   * adding `mix:versionable` counts as a checkout when the configuration says so.
   */
  function Reconciled(ws: Workspace, path: string, mixins: seq<string>, cfg: VersioningConfiguration): Workspace
    requires path in ws.items
  {
    var before := ws.items[path].mixins;
    var implicitCheckout := VersionableMixin in SetOf(mixins) - before && cfg.checkinOnNewVersionableNode;
    Workspace(ws.items[path := ws.items[path].(mixins := SetOf(mixins))],
              ws.log + CheckoutRecords(cfg.checkoutIfNecessary(path)) + (if implicitCheckout then [Checkout(path)] else []))
  }

  /** processCreate as a function of the store, the modification list and the descriptors. */
  function ProcessCreate(path: string, ws: Workspace, locked: set<string>,
                         props: map<string, RequestProperty>, cfg: VersioningConfiguration): Response
  {
    if path !in ws.items then
      var o := DeepGetOrCreate(path, ws, locked, props, cfg);
      Response(o.ws, if o.result.Ok? then Ok(true) else Err(o.result.error))
    else
      match MixinTypes(props, path)
      case None => Response(ws, Ok(false))
      case Some(mixins) => Response(Reconciled(ws, path, mixins, cfg), Ok(false))
  }

  /**
   * Mixin calls on the node at `path` only, none repeated: a removeMixin call
   * for exactly the mixins of `removed` and an addMixin call for exactly those
   * of `added`, all removals before the first addition.
   */
  ghost predicate CallsExactly(calls: seq<MixinCall>, path: string, removed: set<string>, added: set<string>) {
    && (forall i, j :: 0 <= i < j < |calls| ==> calls[i] != calls[j])
    && (forall i, j :: 0 <= i < j < |calls| && calls[i].AddedMixin? ==> calls[j].AddedMixin?)
    && (forall c :: c in calls ==> c.path == path)
    && (forall m :: RemovedMixin(path, m) in calls <==> m in removed)
    && (forall m :: AddedMixin(path, m) in calls <==> m in added)
  }

  /**
   * The first mixin loop of processCreate: remove each mixin the node has that
   * is not requested, and drop each one it has from the mixins still to add.
   */
  method ClearMixins(session: Session, path: string, requested: set<string>)
    returns (newMixins: set<string>, removed: set<string>)
    requires path in session.items
    modifies session
    ensures session.versionLocked == old(session.versionLocked)
    ensures newMixins == requested - old(session.items)[path].mixins
    ensures removed == old(session.items)[path].mixins - requested
    ensures session.items == old(session.items)[path := old(session.items)[path].(mixins := old(session.items)[path].mixins - removed)]
    ensures old(session.mixinCalls) <= session.mixinCalls
    ensures CallsExactly(session.mixinCalls[|old(session.mixinCalls)|..], path, removed, {})
  {
    newMixins := requested;
    ghost var before := session.items[path];
    var existing := session.items[path].mixins;
    var toVisit := existing;
    removed := {};
    ghost var calls: seq<MixinCall> := [];
    assert before.(mixins := before.mixins - {}) == before;
    while toVisit != {}
      invariant toVisit <= existing
      invariant newMixins == requested - (existing - toVisit)
      invariant removed == (existing - toVisit) - requested
      invariant session.mixinCalls == old(session.mixinCalls) + calls
      invariant CallsExactly(calls, path, removed, {})
      invariant session.versionLocked == old(session.versionLocked)
      invariant session.items == old(session.items)[path := before.(mixins := existing - removed)]
      decreases toVisit
    {
      var mixin :| mixin in toVisit;
      toVisit := toVisit - {mixin};
      if mixin in newMixins {
        newMixins := newMixins - {mixin};
      } else {
        session.RemoveMixin(path, mixin);
        assert (existing - removed) - {mixin} == existing - (removed + {mixin});
        RemovalKeepsExact(calls, path, removed, mixin);
        calls := calls + [RemovedMixin(path, mixin)];
        removed := removed + {mixin};
      }
    }
    assert session.mixinCalls[|old(session.mixinCalls)|..] == calls;
  }

  /**
   * The second mixin loop of processCreate: add each mixin left to add;
   * adding mix:versionable is an implicit checkout under the check-in policy.
   */
  method AddNewMixins(session: Session, path: string, newMixins: set<string>, changes: ChangeLog,
                      cfg: VersioningConfiguration) returns (added: set<string>)
    requires path in session.items
    modifies session, changes
    ensures session.versionLocked == old(session.versionLocked)
    ensures added == newMixins
    ensures session.items == old(session.items)[path := old(session.items)[path].(mixins := old(session.items)[path].mixins + added)]
    ensures changes.records
         == old(changes.records) + (if VersionableMixin in added && cfg.checkinOnNewVersionableNode then [Checkout(path)] else [])
    ensures old(session.mixinCalls) <= session.mixinCalls
    ensures CallsExactly(session.mixinCalls[|old(session.mixinCalls)|..], path, {}, added)
  {
    ghost var before := session.items[path];
    var toAdd := newMixins;
    added := {};
    ghost var calls: seq<MixinCall> := [];
    assert before.(mixins := before.mixins + {}) == before;
    while toAdd != {}
      invariant toAdd <= newMixins
      invariant added == newMixins - toAdd
      invariant session.mixinCalls == old(session.mixinCalls) + calls
      invariant CallsExactly(calls, path, {}, added)
      invariant session.versionLocked == old(session.versionLocked)
      invariant session.items == old(session.items)[path := before.(mixins := before.mixins + added)]
      invariant changes.records
             == old(changes.records) + (if VersionableMixin in added && cfg.checkinOnNewVersionableNode then [Checkout(path)] else [])
      decreases toAdd
    {
      var mixin :| mixin in toAdd;
      toAdd := toAdd - {mixin};
      session.AddMixin(path, mixin);
      assert before.mixins + added + {mixin} == before.mixins + (added + {mixin});
      // assigning mix:versionable does an implicit checkout
      if mixin == VersionableMixin && cfg.checkinOnNewVersionableNode {
        changes.Add(Checkout(path));
      }
      AdditionKeepsExact(calls, path, {}, added, mixin);
      calls := calls + [AddedMixin(path, mixin)];
      added := added + {mixin};
    }
    assert session.mixinCalls[|old(session.mixinCalls)|..] == calls;
  }

  /**
   * The mixin reconciliation of processCreate: check the node out, remove each
   * mixin the node has that is not requested, then add each requested one it
   * lacks. A mixin that is both present and requested gets neither call.
   */
  method ReconcileMixins(session: Session, path: string, mixins: seq<string>, changes: ChangeLog,
                         cfg: VersioningConfiguration) returns (added: set<string>, removed: set<string>)
    requires path in session.items
    modifies session, changes
    ensures session.versionLocked == old(session.versionLocked)
    ensures removed == old(session.items)[path].mixins - SetOf(mixins)
    ensures added == SetOf(mixins) - old(session.items)[path].mixins
    ensures old(session.mixinCalls) <= session.mixinCalls
    ensures CallsExactly(session.mixinCalls[|old(session.mixinCalls)|..], path, removed, added)
    ensures Workspace(session.items, changes.records)
         == Reconciled(Workspace(old(session.items), old(changes.records)), path, mixins, cfg)
  {
    // clear existing mixins first
    CheckoutIfNecessary(path, changes, cfg);
    ghost var calls0 := session.mixinCalls;
    var newMixins;
    newMixins, removed := ClearMixins(session, path, SetOf(mixins));
    ghost var calls1 := session.mixinCalls;
    // add new mixins
    added := AddNewMixins(session, path, newMixins, changes, cfg);
    assert old(session.items)[path].mixins - removed + added == SetOf(mixins);
    CallsConcat(calls1[|calls0|..], session.mixinCalls[|calls1|..], path, removed, added);
    assert session.mixinCalls[|calls0|..] == calls1[|calls0|..] + session.mixinCalls[|calls1|..];
  }

  /** A removal of a mixin not yet removed, before any addition, keeps the trace exact. */
  lemma RemovalKeepsExact(calls: seq<MixinCall>, path: string, removed: set<string>, mixin: string)
    requires CallsExactly(calls, path, removed, {}) && mixin !in removed
    ensures CallsExactly(calls + [RemovedMixin(path, mixin)], path, removed + {mixin}, {})
  {
    var grown := calls + [RemovedMixin(path, mixin)];
    forall m ensures RemovedMixin(path, m) in grown <==> m in removed + {mixin} {
      assert RemovedMixin(path, m) in grown <==> RemovedMixin(path, m) in calls || m == mixin;
    }
    forall m ensures AddedMixin(path, m) !in grown {
      assert AddedMixin(path, m) in grown <==> AddedMixin(path, m) in calls;
    }
  }

  /** An addition of a mixin not yet added, after the removals, keeps the trace exact. */
  lemma AdditionKeepsExact(calls: seq<MixinCall>, path: string, removed: set<string>, added: set<string>, mixin: string)
    requires CallsExactly(calls, path, removed, added) && mixin !in added
    ensures CallsExactly(calls + [AddedMixin(path, mixin)], path, removed, added + {mixin})
  {
    var grown := calls + [AddedMixin(path, mixin)];
    forall m ensures RemovedMixin(path, m) in grown <==> m in removed {
      assert RemovedMixin(path, m) in grown <==> RemovedMixin(path, m) in calls;
    }
    forall m ensures AddedMixin(path, m) in grown <==> m in added + {mixin} {
      assert AddedMixin(path, m) in grown <==> AddedMixin(path, m) in calls || m == mixin;
    }
  }

  /** The removals of the first loop followed by the additions of the second make an exact trace. */
  lemma CallsConcat(removals: seq<MixinCall>, additions: seq<MixinCall>, path: string,
                    removed: set<string>, added: set<string>)
    requires CallsExactly(removals, path, removed, {}) && CallsExactly(additions, path, {}, added)
    ensures CallsExactly(removals + additions, path, removed, added)
  {
    var calls := removals + additions;
    OnlyRemovals(removals, path, removed);
    OnlyAdditions(additions, path, added);
    forall i, j | 0 <= i < j < |calls|
      ensures calls[i].AddedMixin? ==> calls[j].AddedMixin?
      ensures calls[i] != calls[j]
    {
      if j < |removals| {
        assert calls[i] == removals[i] && calls[j] == removals[j];
      } else if i < |removals| {
        assert calls[i] == removals[i] && calls[j] == additions[j - |removals|];
      } else {
        assert calls[i] == additions[i - |removals|] && calls[j] == additions[j - |removals|];
      }
    }
  }

  /** A trace that adds nothing holds only removals. */
  lemma OnlyRemovals(calls: seq<MixinCall>, path: string, removed: set<string>)
    requires CallsExactly(calls, path, removed, {})
    ensures forall i :: 0 <= i < |calls| ==> calls[i].RemovedMixin?
  {
    forall i | 0 <= i < |calls|
      ensures calls[i].RemovedMixin?
    {
      if calls[i].AddedMixin? {
        assert false;
      }
    }
  }

  /** A trace that removes nothing holds only additions. */
  lemma OnlyAdditions(calls: seq<MixinCall>, path: string, added: set<string>)
    requires CallsExactly(calls, path, {}, added)
    ensures forall i :: 0 <= i < |calls| ==> calls[i].AddedMixin?
  {
    forall i | 0 <= i < |calls|
      ensures calls[i].AddedMixin?
    {
      if calls[i].RemovedMixin? {
        assert false;
      }
    }
  }

  /** processCreate on the session, the change list and the collected descriptors. */
  method ProcessCreateNode(session: Session, path: string, reqProperties: map<string, RequestProperty>,
                           changes: ChangeLog, cfg: VersioningConfiguration) returns (r: Result<bool, Error>)
    modifies session, changes
    ensures session.versionLocked == old(session.versionLocked)
    ensures Response(Workspace(session.items, changes.records), r)
         == ProcessCreate(path, Workspace(old(session.items), old(changes.records)), old(session.versionLocked), reqProperties, cfg)
  {
    if !session.ItemExists(path) {
      var node := DeepGetOrCreateNode(session, path, reqProperties, changes, cfg);
      if node.Err? {
        return Err(node.error);
      }
      return Ok(true);
    }
    var mixins := MixinTypes(reqProperties, path);
    if mixins.Some? {
      var added, removed := ReconcileMixins(session, path, mixins.value, changes, cfg);
    }
    return Ok(false);
  }

  /**
   * Reconciling again with the same mixins changes no node and logs only the
   * node's checkouts: the implicit checkout of mix:versionable happens once.
   */
  lemma ReconciledIdempotent(ws: Workspace, path: string, mixins: seq<string>, cfg: VersioningConfiguration)
    requires path in ws.items
    ensures
      var once := Reconciled(ws, path, mixins, cfg);
      var twice := Reconciled(once, path, mixins, cfg);
      && twice.items == once.items
      && twice.log == once.log + CheckoutRecords(cfg.checkoutIfNecessary(path))
  {
    var once := Reconciled(ws, path, mixins, cfg);
    assert once.items[path].mixins == SetOf(mixins);
    assert once.items[path := once.items[path].(mixins := SetOf(mixins))] == once.items;
    assert once.log + CheckoutRecords(cfg.checkoutIfNecessary(path)) + [] == once.log + CheckoutRecords(cfg.checkoutIfNecessary(path));
  }

  /**
   * The reconciliation creates and removes no node, changes no other node,
   * leaves the node with exactly the requested mixins, and logs no Created record.
   */
  lemma ReconciledOnlyMixins(ws: Workspace, path: string, mixins: seq<string>, cfg: VersioningConfiguration)
    requires path in ws.items
    ensures
      var after := Reconciled(ws, path, mixins, cfg);
      && after.items.Keys == ws.items.Keys
      && after.items[path] == ws.items[path].(mixins := SetOf(mixins))
      && (forall k :: k in ws.items && k != path ==> after.items[k] == ws.items[k])
      && ws.log <= after.log
      && CreatedPaths(after.log[|ws.log|..]) == []
  {
    var after := Reconciled(ws, path, mixins, cfg);
    var checkouts := CheckoutRecords(cfg.checkoutIfNecessary(path));
    var implicit := after.log[|ws.log| + |checkouts|..];
    assert after.log[|ws.log|..] == checkouts + implicit;
    CheckoutsCreateNothing(cfg.checkoutIfNecessary(path));
    CreatedPathsAppend(checkouts, implicit);
    assert implicit == [] || implicit == [Checkout(path)];
  }

  /** processCreate on a path that exists creates nothing, is not a create request, and touches at most that node's mixins. */
  lemma ProcessCreateExisting(path: string, ws: Workspace, locked: set<string>,
                              props: map<string, RequestProperty>, cfg: VersioningConfiguration)
    requires path in ws.items
    ensures
      var r := ProcessCreate(path, ws, locked, props, cfg);
      && r.createRequest == Ok(false)
      && r.ws.items.Keys == ws.items.Keys
      && (forall k :: k in ws.items && k != path ==> r.ws.items[k] == ws.items[k])
      && r.ws.items[path].primaryType == ws.items[path].primaryType
      && ws.log <= r.ws.log
      && CreatedPaths(r.ws.log[|ws.log|..]) == []
      && (MixinTypes(props, path).None? ==> r.ws == ws)
  {
    match MixinTypes(props, path)
    case None =>
      assert ws.log[|ws.log|..] == [];
    case Some(mixins) =>
      ReconciledOnlyMixins(ws, path, mixins, cfg);
  }

  /**
   * processCreate on a missing path in a prefix-closed store is a create
   * request; it keeps every node it finds, and when it succeeds the path and
   * all its ancestors exist and the store is still prefix-closed.
   */
  lemma ProcessCreateMissing(path: string, ws: Workspace, locked: set<string>,
                             props: map<string, RequestProperty>, cfg: VersioningConfiguration)
    requires path !in ws.items && PrefixClosed(ws.items)
    ensures
      var r := ProcessCreate(path, ws, locked, props, cfg);
      && (forall k :: k in ws.items ==> k in r.ws.items && r.ws.items[k] == ws.items[k])
      && PrefixClosed(r.ws.items)
      && (r.createRequest.Ok? ==> r.createRequest.value && forall k :: SegmentEnd(path, k) ==> path[..k] in r.ws.items)
      && (!StartsWith(path, "/") ==> r == Response(ws, Err(IllegalArgument)))
  {
    DeepGetOrCreateKeeps(path, ws, locked, props, cfg);
    DeepGetOrCreateSucceeds(path, ws, locked, props, cfg);
  }
}
