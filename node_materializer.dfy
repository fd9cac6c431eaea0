/**
 * The node side of the create operation: deepGetOrCreateNode finds the
 * longest existing prefix of the target path, then creates the missing nodes
 * one segment at a time, typed from the collected descriptors.
 */
module NodeMaterializer {
  import opened Wrappers
  import opened Strings
  import opened Descriptors
  import opened Repository

  const PrimaryTypeProperty: string := "/jcr:primaryType"
  const MixinTypesProperty: string := "/jcr:mixinTypes"

  /** The set of names in a sequence (duplicates collapse). */
  function SetOf(names: seq<string>): set<string> {
    set m | m in names
  }

  /**
   * getPrimaryType: the first value of the `<path>/jcr:primaryType` descriptor,
   * None without one; a descriptor without values fails as getPrimaryType's `[0]` does.
   */
  function PrimaryType(props: map<string, RequestProperty>, path: string): Result<Option<string>, Error> {
    var key := path + PrimaryTypeProperty;
    if key !in props then Ok(None)
    else if |props[key].values| == 0 then Err(NoPrimaryTypeValue(key))
    else Ok(Some(props[key].values[0]))
  }

  /** getMixinTypes: the values of the `<path>/jcr:mixinTypes` descriptor, None when absent or without values. */
  function MixinTypes(props: map<string, RequestProperty>, path: string): Option<seq<string>> {
    var key := path + MixinTypesProperty;
    if key in props && props[key].HasValues() then Some(props[key].values) else None
  }

  /** The mixins a node created at `path` ends up with. */
  function MixinSet(props: map<string, RequestProperty>, path: string): set<string> {
    match MixinTypes(props, path)
    case Some(mixins) => SetOf(mixins)
    case None => {}
  }

  /** `p[..k]` is a whole-segment prefix of `p`: it is `p` or is followed by a slash. */
  predicate SegmentEnd(p: string, k: int) {
    0 < k <= |p| && (k == |p| || p[k] == '/')
  }

  /** A store whose root exists and which holds every whole-segment prefix of each of its nodes. */
  ghost predicate PrefixClosed(items: map<string, Node>) {
    && "/" in items
    && forall p, k :: p in items && SegmentEnd(p, k) ==> p[..k] in items
  }

  /**
   * The upward walk of deepGetOrCreateNode: from `p`, cut the last segment
   * until an existing item or the root is reached. The result is "/" or an
   * existing whole-segment prefix of `p`, and no longer whole-segment prefix
   * of `p` exists: it is the longest existing one.
   */
  function Ascend(items: map<string, Node>, p: string): (r: string)
    requires StartsWith(p, "/")
    ensures StartsWith(r, "/") && StartsWith(p, r)
    ensures r == "/" || (r in items && SegmentEnd(p, |r|))
    ensures forall k :: |r| < k && SegmentEnd(p, k) ==> p[..k] !in items
    decreases |p|
  {
    if p == "/" then "/"
    else if p in items then p
    else
      var pos := LastIndexOf(p, '/');
      var shorter := if pos > 0 then p[..pos] else "/";
      assert StartsWith(shorter, "/");
      var r := Ascend(items, shorter);
      assert p[..|p|] == p;
      assert forall k :: |r| < k && SegmentEnd(p, k) && k <= pos ==> SegmentEnd(shorter, k) && p[..k] == shorter[..k];
      r
  }

  /** The store's nodes and the modification list. */
  datatype Workspace = Workspace(items: map<string, Node>, log: seq<Modification>)

  /** The state after an operation and what it returned or threw. */
  datatype Outcome = Outcome(ws: Workspace, result: Result<string, Error>)

  /** What one iteration of the forward walk does: stop with an outcome, or go on at `next` from `nodePath`. */
  datatype Move = Stop(out: Outcome) | Go(next: nat, nodePath: string, ws: Workspace)

  /**
   * One iteration of deepGetOrCreateNode's forward loop at string index `from`:
   * read the next segment, descend into it when it exists, create it otherwise.
   */
  function Advance(path: string, from: nat, nodePath: string, ws: Workspace, locked: set<string>,
                   props: map<string, RequestProperty>, cfg: VersioningConfiguration): (m: Move)
    requires 0 < from <= |path|
    ensures m.Go? ==> m.next <= |path| && (m.next == 0 || from < m.next)
  {
    var to := IndexOf(path, '/', from);
    var name := if to < 0 then path[from..] else path[from..to];
    var tmpPath := if to < 0 then path else path[..to];
    var child := ChildPath(nodePath, name);
    if name == "" then Stop(Outcome(ws, Err(InvalidName(nodePath))))
    else if child in ws.items then Go(to + 1, child, ws)
    else
      var created := CreateChild(nodePath, name, tmpPath, ws, locked, props, cfg);
      if created.result.Err? then Stop(created)
      else Go(to + 1, created.result.value, created.ws)
  }

  /** The forward walk from string index `from` (0 once the last segment is done) at the node `nodePath`. */
  function Forward(path: string, from: nat, nodePath: string, ws: Workspace, locked: set<string>,
                   props: map<string, RequestProperty>, cfg: VersioningConfiguration): Outcome
    requires from <= |path|
    decreases if from == 0 then 0 else |path| + 1 - from
  {
    if from == 0 then Outcome(ws, Ok(nodePath))
    else
      match Advance(path, from, nodePath, ws, locked, props, cfg)
      case Stop(out) => out
      case Go(next, child, ws') => Forward(path, next, child, ws', locked, props, cfg)
  }

  /**
   * Creating child `name` of the node at `nodePath`, whose cumulative path in
   * the walk is `tmpPath`: look up its primary type, check the parent out, add
   * it (or rethrow the VersionException), give it its mixins, log it.
   */
  function CreateChild(nodePath: string, name: string, tmpPath: string, ws: Workspace, locked: set<string>,
                       props: map<string, RequestProperty>, cfg: VersioningConfiguration): Outcome
  {
    match PrimaryType(props, tmpPath)
    case Err(e) => Outcome(ws, Err(e))
    case Ok(nodeType) =>
      var log := ws.log + CheckoutRecords(cfg.checkoutIfNecessary(nodePath));
      if nodePath in locked then Outcome(Workspace(ws.items, log), Err(VersionConflict(nodePath, name)))
      else
        var child := ChildPath(nodePath, name);
        Outcome(Workspace(ws.items[child := Node(nodeType, MixinSet(props, tmpPath))], log + [Created(child)]), Ok(child))
  }

  /** The first string index the forward walk reads after the starting node `start`. */
  function FirstSegment(start: string): nat {
    if |start| == 1 then 1 else |start| + 1
  }

  /** deepGetOrCreateNode as a function of the store, the modification list and the descriptors. */
  function DeepGetOrCreate(path: string, ws: Workspace, locked: set<string>,
                           props: map<string, RequestProperty>, cfg: VersioningConfiguration): Outcome
  {
    if !StartsWith(path, "/") then Outcome(ws, Err(IllegalArgument))
    else
      var start := Ascend(ws.items, path);
      if |start| == |path| then Outcome(ws, Ok(start))
      else
        StartFits(ws.items, path);
        Forward(path, FirstSegment(start), start, ws, locked, props, cfg)
  }

  /** The forward walk starts at a slash inside the target path. */
  lemma StartFits(items: map<string, Node>, path: string)
    requires StartsWith(path, "/")
    requires |Ascend(items, path)| != |path|
    ensures AtSegment(path, FirstSegment(Ascend(items, path)), Ascend(items, path))
  {
    var start := Ascend(items, path);
    if |start| == 1 {
      assert start == start[..1] == "/";
    }
  }

  /** The forward walk stands on the node at `nodePath`, the part of `path` before the slash at `from - 1`. */
  predicate AtSegment(path: string, from: nat, nodePath: string) {
    && 1 <= from <= |path|
    && path[from - 1] == '/'
    && nodePath == (if from == 1 then "/" else path[..from - 1])
    && (from == 1 || nodePath != "/")
  }

  /** One more listed mixin adds it to the set and one addMixin call at the end. */
  lemma AddedStep(path: string, mixins: seq<string>, i: nat)
    requires i < |mixins|
    ensures SetOf(mixins[..i + 1]) == SetOf(mixins[..i]) + {mixins[i]}
    ensures AddedCalls(path, mixins[..i + 1]) == AddedCalls(path, mixins[..i]) + [AddedMixin(path, mixins[i])]
  {
    assert mixins[..i + 1] == mixins[..i] + [mixins[i]];
    assert mixins[..i + 1][..i] == mixins[..i];
  }

  /** Add each listed mixin to the new node, in list order, one addMixin call per entry. */
  method AddMixins(session: Session, path: string, mixins: seq<string>)
    requires path in session.items
    modifies session
    ensures session.versionLocked == old(session.versionLocked)
    ensures session.items == old(session.items)[path := old(session.items)[path].(mixins := old(session.items)[path].mixins + SetOf(mixins))]
    ensures session.mixinCalls == old(session.mixinCalls) + AddedCalls(path, mixins)
  {
    ghost var before := old(session.items)[path];
    assert SetOf(mixins[..0]) == {};
    assert before.(mixins := before.mixins + {}) == before;
    assert session.items == old(session.items)[path := before];
    for i := 0 to |mixins|
      invariant session.versionLocked == old(session.versionLocked)
      invariant session.items == old(session.items)[path := before.(mixins := before.mixins + SetOf(mixins[..i]))]
      invariant session.mixinCalls == old(session.mixinCalls) + AddedCalls(path, mixins[..i])
    {
      AddedStep(path, mixins, i);
      session.AddMixin(path, mixins[i]);
      assert before.mixins + SetOf(mixins[..i]) + {mixins[i]} == before.mixins + SetOf(mixins[..i + 1]);
    }
    assert mixins[..|mixins|] == mixins;
  }

  /**
   * The first loop of deepGetOrCreateNode: walk up from `path` one segment at
   * a time until the root or an existing item; that is the starting node.
   */
  method StartingNodePath(session: Session, path: string) returns (startingNodePath: string)
    requires StartsWith(path, "/")
    ensures startingNodePath == Ascend(session.items, path)
  {
    startingNodePath := path;
    var startingNode: Option<string> := None;
    while startingNode.None?
      invariant StartsWith(startingNodePath, "/")
      invariant startingNode.None? ==> Ascend(session.items, startingNodePath) == Ascend(session.items, path)
      invariant startingNode.Some? ==> startingNodePath == Ascend(session.items, path)
      decreases startingNode.None?, |startingNodePath|
    {
      if startingNodePath == "/" {
        startingNode := Some("/");
      } else if session.ItemExists(startingNodePath) {
        startingNode := Some(startingNodePath);
      } else {
        var pos := LastIndexOf(startingNodePath, '/');
        if pos > 0 {
          startingNodePath := startingNodePath[..pos];
        } else {
          startingNodePath := "/";
        }
      }
    }
  }

  /** deepGetOrCreateNode: returns the path of the node at `path`, creating the missing ones. */
  method DeepGetOrCreateNode(session: Session, path: string, reqProperties: map<string, RequestProperty>,
                             changes: ChangeLog, cfg: VersioningConfiguration) returns (r: Result<string, Error>)
    modifies session, changes
    ensures session.versionLocked == old(session.versionLocked)
    ensures Outcome(Workspace(session.items, changes.records), r)
         == DeepGetOrCreate(path, Workspace(old(session.items), old(changes.records)), old(session.versionLocked), reqProperties, cfg)
  {
    if !StartsWith(path, "/") {
      return Err(IllegalArgument);
    }
    // get the starting node
    var startingNodePath := StartingNodePath(session, path);
    // is the searched node already existing?
    if |startingNodePath| == |path| {
      return Ok(startingNodePath);
    }
    // create nodes
    StartFits(session.items, path);
    var from := if |startingNodePath| == 1 then 1 else |startingNodePath| + 1;
    var node := startingNodePath;
    ghost var target := Forward(path, from, node, Workspace(session.items, changes.records), session.versionLocked, reqProperties, cfg);
    assert target == DeepGetOrCreate(path, Workspace(old(session.items), old(changes.records)), old(session.versionLocked), reqProperties, cfg);
    while from > 0
      invariant from <= |path|
      invariant session.versionLocked == old(session.versionLocked)
      invariant Forward(path, from, node, Workspace(session.items, changes.records), session.versionLocked, reqProperties, cfg) == target
      decreases if from == 0 then 0 else |path| + 1 - from
    {
      var stop, r, next := ForwardStep(session, path, from, node, reqProperties, changes, cfg);
      if stop {
        return r;
      }
      from, node := next, r.value;
    }
    return Ok(node);
  }

  /** One iteration of deepGetOrCreateNode's forward loop, as `Advance` describes it. */
  method ForwardStep(session: Session, path: string, from: nat, node: string,
                     reqProperties: map<string, RequestProperty>, changes: ChangeLog,
                     cfg: VersioningConfiguration) returns (stop: bool, r: Result<string, Error>, next: nat)
    requires 0 < from <= |path|
    modifies session, changes
    ensures session.versionLocked == old(session.versionLocked)
    ensures
      var m := Advance(path, from, node, Workspace(old(session.items), old(changes.records)),
                       old(session.versionLocked), reqProperties, cfg);
      if stop then m == Stop(Outcome(Workspace(session.items, changes.records), r))
      else r.Ok? && m == Go(next, r.value, Workspace(session.items, changes.records))
  {
    ghost var ws := Workspace(session.items, changes.records);
    var to := IndexOf(path, '/', from);
    var name := if to < 0 then path[from..] else path[from..to];
    var hasNode := session.HasNode(node, name);
    if hasNode.Err? {
      return true, Err(hasNode.error), 0;
    }
    if hasNode.value {
      // although the node should not exist, deepGetOrCreateNode checks and descends
      return false, Ok(ChildPath(node, name)), to + 1;
    }
    var tmpPath := if to < 0 then path else path[..to];
    var created := CreateChildNode(session, node, name, tmpPath, reqProperties, changes, cfg);
    if created.Err? {
      return true, created, 0;
    }
    return false, created, to + 1;
  }

  /** The else branch of deepGetOrCreateNode's forward loop: create child `name` of the node at `node`. */
  method CreateChildNode(session: Session, node: string, name: string, tmpPath: string,
                         reqProperties: map<string, RequestProperty>, changes: ChangeLog,
                         cfg: VersioningConfiguration) returns (r: Result<string, Error>)
    requires ChildPath(node, name) !in session.items
    modifies session, changes
    ensures session.versionLocked == old(session.versionLocked)
    ensures Outcome(Workspace(session.items, changes.records), r)
         == CreateChild(node, name, tmpPath, Workspace(old(session.items), old(changes.records)),
                        old(session.versionLocked), reqProperties, cfg)
  {
    // check for node type
    var nodeType := PrimaryType(reqProperties, tmpPath);
    if nodeType.Err? {
      return Err(nodeType.error);
    }
    CheckoutIfNecessary(node, changes, cfg);
    var added := session.AddNode(node, name, nodeType.value);
    if added.Err? {
      return Err(added.error);
    }
    var child := added.value;
    // check for mixin types
    var mixinTypes := MixinTypes(reqProperties, tmpPath);
    if mixinTypes.Some? {
      AddMixins(session, child, mixinTypes.value);
      assert {} + SetOf(mixinTypes.value) == MixinSet(reqProperties, tmpPath);
    }
    assert session.items == old(session.items)[child := Node(nodeType.value, MixinSet(reqProperties, tmpPath))];
    changes.Add(Created(child));
    return Ok(child);
  }
}
