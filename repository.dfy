/**
 * The in-memory stand-in for the JCR session the create operation talks to:
 * nodes keyed by absolute path, each with a primary type and a mixin set, and
 * the append-only list of modifications the operation reports.
 */
module Repository {
  import opened Wrappers

  /** A node: its primary type (None: the type the store picks for addNode(name)) and its mixins. */
  datatype Node = Node(primaryType: Option<string>, mixins: set<string>)

  /** Modification.onCreated and Modification.onCheckout. */
  datatype Modification = Created(path: string) | Checkout(path: string)

  /** Failures of the operation: the thrown exceptions of the modelled code and of the store. */
  datatype Error =
    | IllegalArgument                            // deepGetOrCreateNode on a path not starting with "/"
    | VersionConflict(parent: string, name: string)  // VersionException from addNode, rethrown
    | InvalidName(parent: string)                // the store refuses an empty child name
    | NoPrimaryTypeValue(key: string)            // getPrimaryType on a jcr:primaryType descriptor without values

  /**
   * The versioning configuration and the base class's checkoutIfNecessary:
   * for a node path, the versionable nodes it checks out (one Checkout record each).
   */
  datatype VersioningConfiguration = VersioningConfiguration(
    checkinOnNewVersionableNode: bool,
    checkoutIfNecessary: string -> seq<string>)

  const VersionableMixin: string := "mix:versionable"

  /** Node.getPath of child `name` of the node at `parent`. */
  function ChildPath(parent: string, name: string): string {
    if parent == "/" then "/" + name else parent + "/" + name
  }

  /** The Checkout records for the given node paths, in order. */
  function CheckoutRecords(paths: seq<string>): (r: seq<Modification>)
    ensures |r| == |paths|
    ensures forall i :: 0 <= i < |r| ==> r[i] == Checkout(paths[i])
  {
    if paths == [] then [] else [Checkout(paths[0])] + CheckoutRecords(paths[1..])
  }

  /** The paths of the Created records of a log, in order. */
  function CreatedPaths(log: seq<Modification>): seq<string> {
    if log == [] then []
    else if log[0].Created? then [log[0].path] + CreatedPaths(log[1..])
    else CreatedPaths(log[1..])
  }

  lemma {:induction false} CreatedPathsAppend(a: seq<Modification>, b: seq<Modification>)
    ensures CreatedPaths(a + b) == CreatedPaths(a) + CreatedPaths(b)
  {
    if a == [] {
      assert a + b == b;
    } else {
      assert (a + b)[0] == a[0] && (a + b)[1..] == a[1..] + b;
      CreatedPathsAppend(a[1..], b);
    }
  }

  lemma {:induction false} CheckoutsCreateNothing(paths: seq<string>)
    ensures CreatedPaths(CheckoutRecords(paths)) == []
  {
    if paths != [] {
      CheckoutsCreateNothing(paths[1..]);
    }
  }

  /** The list of modifications the operation appends to. */
  class ChangeLog {
    var records: seq<Modification>

    constructor ()
      ensures records == []
    {
      records := [];
    }

    method Add(m: Modification)
      modifies this
      ensures records == old(records) + [m]
    {
      records := records + [m];
    }
  }

  /** One Node.addMixin or Node.removeMixin call, on the node at `path`. */
  datatype MixinCall = AddedMixin(path: string, mixin: string) | RemovedMixin(path: string, mixin: string)

  /** The addMixin calls for `mixins` on the node at `path`, in order. */
  function AddedCalls(path: string, mixins: seq<string>): (calls: seq<MixinCall>)
    ensures |calls| == |mixins|
    ensures forall i :: 0 <= i < |mixins| ==> calls[i] == AddedMixin(path, mixins[i])
  {
    if mixins == [] then [] else AddedCalls(path, mixins[..|mixins| - 1]) + [AddedMixin(path, mixins[|mixins| - 1])]
  }

  /**
   * The session: the nodes by path, the nodes under which addNode fails with
   * a VersionException, and the trace of the mixin calls made on it.
   */
  class Session {
    var items: map<string, Node>
    var versionLocked: set<string>
    ghost var mixinCalls: seq<MixinCall>

    constructor (items: map<string, Node>, versionLocked: set<string>)
      ensures this.items == items && this.versionLocked == versionLocked && mixinCalls == []
    {
      this.items := items;
      this.versionLocked := versionLocked;
      mixinCalls := [];
    }

    predicate ItemExists(path: string)
      reads this
    {
      path in items
    }

    /** Node.hasNode(name) on the node at `parent`; an empty name is refused. */
    function HasNode(parent: string, name: string): (r: Result<bool, Error>)
      reads this
      ensures r.Err? <==> name == ""
      ensures r.Ok? ==> (r.value <==> ChildPath(parent, name) in items)
    {
      if name == "" then Err(InvalidName(parent)) else Ok(ChildPath(parent, name) in items)
    }

    /**
     * Node.addNode(name[, nodeType]) on the node at `parent`: a new node with
     * no mixins, or a VersionException when the parent refuses new children.
     * It is only called for a child that does not exist yet.
     */
    method AddNode(parent: string, name: string, nodeType: Option<string>) returns (r: Result<string, Error>)
      requires ChildPath(parent, name) !in items
      modifies this
      ensures versionLocked == old(versionLocked) && mixinCalls == old(mixinCalls)
      ensures parent in versionLocked ==> r == Err(VersionConflict(parent, name)) && items == old(items)
      ensures parent !in versionLocked ==>
        && r == Ok(ChildPath(parent, name))
        && items == old(items)[ChildPath(parent, name) := Node(nodeType, {})]
    {
      if parent in versionLocked {
        return Err(VersionConflict(parent, name));
      }
      var child := ChildPath(parent, name);
      items := items[child := Node(nodeType, {})];
      return Ok(child);
    }

    /** Node.addMixin */
    method AddMixin(path: string, mixin: string)
      requires path in items
      modifies this
      ensures versionLocked == old(versionLocked)
      ensures items == old(items)[path := old(items)[path].(mixins := old(items)[path].mixins + {mixin})]
      ensures mixinCalls == old(mixinCalls) + [AddedMixin(path, mixin)]
    {
      items := items[path := items[path].(mixins := items[path].mixins + {mixin})];
      mixinCalls := mixinCalls + [AddedMixin(path, mixin)];
    }

    /** Node.removeMixin */
    method RemoveMixin(path: string, mixin: string)
      requires path in items
      modifies this
      ensures versionLocked == old(versionLocked)
      ensures items == old(items)[path := old(items)[path].(mixins := old(items)[path].mixins - {mixin})]
      ensures mixinCalls == old(mixinCalls) + [RemovedMixin(path, mixin)]
    {
      items := items[path := items[path].(mixins := items[path].mixins - {mixin})];
      mixinCalls := mixinCalls + [RemovedMixin(path, mixin)];
    }
  }

  /** checkoutIfNecessary(node, changes, configuration): one Checkout record per node it checks out. */
  method CheckoutIfNecessary(path: string, changes: ChangeLog, cfg: VersioningConfiguration)
    modifies changes
    ensures changes.records == old(changes.records) + CheckoutRecords(cfg.checkoutIfNecessary(path))
  {
    var checkedOut := cfg.checkoutIfNecessary(path);
    var i := 0;
    while i < |checkedOut|
      invariant 0 <= i <= |checkedOut|
      invariant changes.records == old(changes.records) + CheckoutRecords(checkedOut[..i])
    {
      assert checkedOut[..i + 1] == checkedOut[..i] + [checkedOut[i]];
      CheckoutRecordsAppend(checkedOut[..i], checkedOut[i]);
      changes.Add(Checkout(checkedOut[i]));
      i := i + 1;
    }
    assert checkedOut[..i] == checkedOut;
  }

  lemma CheckoutRecordsAppend(paths: seq<string>, p: string)
    ensures CheckoutRecords(paths + [p]) == CheckoutRecords(paths) + [Checkout(p)]
  {
  }
}
