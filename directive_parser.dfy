/**
 * collectContent: turns the ordered request parameters into the ordered map
 * from absolute property path to descriptor, skipping reserved parameters and
 * applying the @-suffix directives to the descriptor of the base path.
 */
module DirectiveParser {
  import opened Wrappers
  import opened Strings
  import opened Descriptors

  /** Prefix of the servlet's own control parameters (SlingPostConstants.RP_PREFIX). */
  const RpPrefix: string := ":"
  /** The form-encoding parameter (SLING-298). */
  const CharsetParam: string := "_charset_"

  const TypeHintSuffix: string := "@TypeHint"
  const DefaultValueSuffix: string := "@DefaultValue"
  const ValueFromSuffix: string := "@ValueFrom"
  const DeleteSuffix: string := "@Delete"
  const MoveFromSuffix: string := "@MoveFrom"
  const CopyFromSuffix: string := "@CopyFrom"
  const IgnoreBlanksSuffix: string := "@IgnoreBlanks"
  const UseDefaultWhenMissingSuffix: string := "@UseDefaultWhenMissing"

  /** One request parameter: its name and its submitted string values, in order. */
  datatype Param = Param(name: string, values: seq<string>)

  /**
   * What collectContent reads from the request: the response path that relative
   * names resolve against, the parameters in request order, whether the item
   * path prefix is required, and the two helpers of the base class
   * (hasItemPathPrefix) and of the resource API (ResourceUtil.normalize).
   */
  datatype Request = Request(
    path: string,
    params: seq<Param>,
    requireItemPrefix: bool,
    hasItemPathPrefix: string -> bool,
    normalize: string -> string)

  /** The suffix directives, in the order of the if-chain; Plain is "no suffix". */
  datatype Directive =
    | TypeHint | DefaultValue | ValueFrom | Delete | MoveFrom | CopyFrom
    | IgnoreBlanks | UseDefaultWhenMissing | Plain

  function Rank(d: Directive): nat {
    match d
    case TypeHint => 0
    case DefaultValue => 1
    case ValueFrom => 2
    case Delete => 3
    case MoveFrom => 4
    case CopyFrom => 5
    case IgnoreBlanks => 6
    case UseDefaultWhenMissing => 7
    case Plain => 8
  }

  /** The suffix literal of a directive; Plain has none (getOrCreateRequestProperty with a null suffix). */
  function SuffixOf(d: Directive): Option<string> {
    match d
    case TypeHint => Some(TypeHintSuffix)
    case DefaultValue => Some(DefaultValueSuffix)
    case ValueFrom => Some(ValueFromSuffix)
    case Delete => Some(DeleteSuffix)
    case MoveFrom => Some(MoveFromSuffix)
    case CopyFrom => Some(CopyFromSuffix)
    case IgnoreBlanks => Some(IgnoreBlanksSuffix)
    case UseDefaultWhenMissing => Some(UseDefaultWhenMissingSuffix)
    case Plain => None
  }

  predicate Matches(propPath: string, d: Directive) {
    SuffixOf(d).Some? && EndsWith(propPath, SuffixOf(d).value)
  }

  /** The directive tested at position `i` of the if-chain; Plain past its end. */
  function AtRank(i: nat): (d: Directive)
    ensures i < 8 ==> Rank(d) == i
    ensures i >= 8 ==> d == Plain
  {
    if i == 0 then TypeHint
    else if i == 1 then DefaultValue
    else if i == 2 then ValueFrom
    else if i == 3 then Delete
    else if i == 4 then MoveFrom
    else if i == 5 then CopyFrom
    else if i == 6 then IgnoreBlanks
    else if i == 7 then UseDefaultWhenMissing
    else Plain
  }

  /** The if-chain from its `i`-th test on: the first directive whose suffix ends the path. */
  function FirstMatch(propPath: string, i: nat): (d: Directive)
    requires i <= 8
    ensures d == Plain || (i <= Rank(d) && Matches(propPath, d))
    ensures forall e {:trigger Matches(propPath, e)} :: i <= Rank(e) < Rank(d) ==> !Matches(propPath, e)
    decreases 8 - i
  {
    if i == 8 then Plain
    else if Matches(propPath, AtRank(i)) then AtRank(i)
    else
      var d := FirstMatch(propPath, i + 1);
      assert forall e :: Rank(e) == i ==> e == AtRank(i);
      d
  }

  /** The directive the if-chain picks for a property path: the first whose suffix ends it. */
  function Classify(propPath: string): (d: Directive)
    ensures d == Plain || Matches(propPath, d)
    ensures forall e {:trigger Matches(propPath, e)} :: Rank(e) < Rank(d) ==> !Matches(propPath, e)
  {
    FirstMatch(propPath, 0)
  }

  /** request.getRequestParameters(name): the values of the first parameter of that name, or null. */
  function RequestParameters(params: seq<Param>, name: string): (r: Option<seq<string>>)
    ensures r.None? <==> forall i :: 0 <= i < |params| ==> params[i].name != name
    ensures r.Some? ==> exists i :: 0 <= i < |params| && params[i].name == name && params[i].values == r.value
  {
    if |params| == 0 then None
    else if params[0].name == name then Some(params[0].values)
    else
      var r := RequestParameters(params[1..], name);
      assert forall i :: 1 <= i < |params| ==> params[i] == params[1..][i - 1];
      r
  }

  /** The three reasons collectContent skips a parameter without touching the map. */
  predicate Skipped(req: Request, name: string) {
    || StartsWith(name, RpPrefix)
    || name == CharsetParam
    || (req.requireItemPrefix && !req.hasItemPathPrefix(name))
  }

  /** toPropertyPath: an absolute name is kept, a relative one is resolved against the response path. */
  function ToPropertyPath(req: Request, name: string): string {
    if StartsWith(name, "/") then name else req.normalize(req.path + "/" + name)
  }

  /** The key of the descriptor a parameter updates: its property path without the directive suffix. */
  function KeyOf(req: Request, name: string): string {
    var propPath := ToPropertyPath(req, name);
    StripSuffix(propPath, SuffixOf(Classify(propPath)))
  }

  /** What the setters called for one directive do to the descriptor. */
  function Apply(req: Request, prop: RequestProperty, d: Directive, values: seq<string>): (r: RequestProperty)
    ensures r.path == prop.path
  {
    match d
    case TypeHint => if |values| > 0 then prop.(typeHint := Some(values[0])) else prop
    case DefaultValue => prop.(defaultValues := values)
    case ValueFrom =>
      if |values| == 1 then
        match RequestParameters(req.params, values[0])
        case Some(refValues) => prop.(values := refValues)
        case None => prop
      else prop
    case Delete => prop.(delete := true)
    case MoveFrom => if |values| == 1 then prop.(repositorySource := Some(Source(values[0], true))) else prop
    case CopyFrom => if |values| == 1 then prop.(repositorySource := Some(Source(values[0], false))) else prop
    case IgnoreBlanks => if |values| == 1 then prop.(ignoreBlanks := true) else prop
    case UseDefaultWhenMissing => if |values| == 1 then prop.(useDefaultWhenMissing := true) else prop
    case Plain => prop.(values := values)
  }

  /** getOrCreateRequestProperty for `key`, then the setters of `directive` on that descriptor. */
  function Upsert(req: Request, d: Descriptors, key: string, directive: Directive, values: seq<string>): Descriptors {
    var d1 := GetOrCreate(d, key);
    d1.(props := d1.props[key := Apply(req, d1.props[key], directive, values)])
  }

  /** One pass of collectContent's loop body over parameter `p`. */
  function Step(req: Request, d: Descriptors, p: Param): Descriptors {
    if Skipped(req, p.name) then d
    else
      var propPath := ToPropertyPath(req, p.name);
      var directive := Classify(propPath);
      Upsert(req, d, StripSuffix(propPath, SuffixOf(directive)), directive, p.values)
  }

  /** The map after the first `n` parameters of the request. */
  function Collect(req: Request, n: nat): Descriptors
    requires n <= |req.params|
  {
    if n == 0 then EmptyDescriptors()
    else Step(req, Collect(req, n - 1), req.params[n - 1])
  }

  /** collectContent: walks the parameters in order and fills a fresh ordered map. */
  method CollectContent(req: Request) returns (reqProperties: PropertyMap)
    ensures fresh(reqProperties)
    ensures reqProperties.Value() == Collect(req, |req.params|)
  {
    reqProperties := new PropertyMap();
    var i := 0;
    while i < |req.params|
      invariant 0 <= i <= |req.params|
      invariant reqProperties.Value() == Collect(req, i)
    {
      CollectParameter(req, reqProperties, req.params[i]);
      i := i + 1;
    }
  }

  /** The body of collectContent's loop for one parameter `e`. */
  method CollectParameter(req: Request, reqProperties: PropertyMap, e: Param)
    modifies reqProperties
    ensures reqProperties.Value() == Step(req, old(reqProperties.Value()), e)
  {
    var paramName := e.name;
    if StartsWith(paramName, RpPrefix) {
      // a control parameter of the servlet
      return;
    }
    if paramName == CharsetParam {
      // the form encoding parameter
      return;
    }
    if req.requireItemPrefix && !req.hasItemPathPrefix(paramName) {
      // not a property while the item path prefix is required
      return;
    }
    var propPath := ToPropertyPath(req, paramName);
    // the if-chain over the directive suffixes
    var directive := Classify(propPath);
    ApplyDirective(req, reqProperties, propPath, directive, e.values);
  }

  /**
   * One branch of collectContent's if-chain: get or create the descriptor of
   * `propPath` without the directive's suffix, then call that directive's setters.
   */
  method ApplyDirective(req: Request, reqProperties: PropertyMap, propPath: string, directive: Directive, rp: seq<string>)
    modifies reqProperties
    ensures reqProperties.Value()
         == Upsert(req, old(reqProperties.Value()), StripSuffix(propPath, SuffixOf(directive)), directive, rp)
  {
    match directive
    case TypeHint =>
      var key := reqProperties.GetOrCreateRequestProperty(propPath, Some(TypeHintSuffix));
      var prop := reqProperties.props[key];
      if |rp| > 0 {
        prop := prop.(typeHint := Some(rp[0]));
      }
      reqProperties.Update(key, prop);
    case DefaultValue =>
      var key := reqProperties.GetOrCreateRequestProperty(propPath, Some(DefaultValueSuffix));
      var prop := reqProperties.props[key].(defaultValues := rp);
      reqProperties.Update(key, prop);
    case ValueFrom =>
      var key := reqProperties.GetOrCreateRequestProperty(propPath, Some(ValueFromSuffix));
      var prop := reqProperties.props[key];
      // @ValueFrom needs exactly one value naming a submitted parameter
      if |rp| == 1 {
        var refValues := RequestParameters(req.params, rp[0]);
        if refValues.Some? {
          prop := prop.(values := refValues.value);
        }
      }
      reqProperties.Update(key, prop);
    case Delete =>
      var key := reqProperties.GetOrCreateRequestProperty(propPath, Some(DeleteSuffix));
      var prop := reqProperties.props[key].(delete := true);
      reqProperties.Update(key, prop);
    case MoveFrom =>
      var key := reqProperties.GetOrCreateRequestProperty(propPath, Some(MoveFromSuffix));
      var prop := reqProperties.props[key];
      if |rp| == 1 {
        prop := prop.(repositorySource := Some(Source(rp[0], true)));
      }
      reqProperties.Update(key, prop);
    case CopyFrom =>
      var key := reqProperties.GetOrCreateRequestProperty(propPath, Some(CopyFromSuffix));
      var prop := reqProperties.props[key];
      if |rp| == 1 {
        prop := prop.(repositorySource := Some(Source(rp[0], false)));
      }
      reqProperties.Update(key, prop);
    case IgnoreBlanks =>
      var key := reqProperties.GetOrCreateRequestProperty(propPath, Some(IgnoreBlanksSuffix));
      var prop := reqProperties.props[key];
      if |rp| == 1 {
        prop := prop.(ignoreBlanks := true);
      }
      reqProperties.Update(key, prop);
    case UseDefaultWhenMissing =>
      var key := reqProperties.GetOrCreateRequestProperty(propPath, Some(UseDefaultWhenMissingSuffix));
      var prop := reqProperties.props[key];
      if |rp| == 1 {
        prop := prop.(useDefaultWhenMissing := true);
      }
      reqProperties.Update(key, prop);
    case Plain =>
      // a plain property: its values are the submitted ones
      var key := reqProperties.GetOrCreateRequestProperty(propPath, None);
      var prop := reqProperties.props[key].(values := rp);
      reqProperties.Update(key, prop);
  }

  /** No directive suffix is a suffix of another one. */
  lemma SuffixesNotNested(a: Directive, b: Directive)
    requires a != Plain && b != Plain
    requires EndsWith(SuffixOf(b).value, SuffixOf(a).value)
    ensures a == b
  {
    EndsWithTail(SuffixOf(b).value, SuffixOf(a).value);
  }

  /**
   * A property path ends with at most one directive suffix, so the order of
   * the if-chain never decides between two matching suffixes.
   */
  lemma SuffixesExclusive(propPath: string, a: Directive, b: Directive)
    requires Matches(propPath, a) && Matches(propPath, b)
    ensures a == b
  {
    var sa, sb := SuffixOf(a).value, SuffixOf(b).value;
    if |sa| <= |sb| {
      EndsWithBoth(propPath, sa, sb);
      SuffixesNotNested(a, b);
    } else {
      EndsWithBoth(propPath, sb, sa);
      SuffixesNotNested(b, a);
    }
  }

  /**
   * Every directive on the absolute base path `base` is keyed by `base`
   * itself: the suffix is recognised whatever `base` is, and stripped.
   */
  lemma DirectiveKey(req: Request, base: string, d: Directive)
    requires StartsWith(base, "/") && d != Plain
    ensures Classify(base + SuffixOf(d).value) == d
    ensures KeyOf(req, base + SuffixOf(d).value) == base
  {
    var name := base + SuffixOf(d).value;
    assert name[..1] == base[..1];
    assert name[|name| - |SuffixOf(d).value|..] == SuffixOf(d).value;
    EndsWithTail(name, SuffixOf(d).value);
    var c := Classify(name);
    if c != Plain {
      SuffixesExclusive(name, c, d);
    }
    assert name[..|name| - |SuffixOf(d).value|] == base;
  }

  /** A plain absolute property path is its own key. */
  lemma PlainKey(req: Request, name: string)
    requires StartsWith(name, "/") && Classify(name) == Plain
    ensures KeyOf(req, name) == name
  {
  }

  /**
   * The upsert of `key` adds at most that key, at the end of the order, keeps
   * the other descriptors and the map valid, and applies the directive to the
   * descriptor that was there or to a new one.
   */
  lemma UpsertShape(req: Request, d: Descriptors, key: string, directive: Directive, values: seq<string>)
    requires d.Valid()
    ensures Upsert(req, d, key, directive, values).Valid()
    ensures Upsert(req, d, key, directive, values).props.Keys == d.props.Keys + {key}
    ensures Upsert(req, d, key, directive, values).order == (if key in d.props then d.order else d.order + [key])
    ensures Upsert(req, d, key, directive, values).props[key] == Apply(req, DescriptorFor(d, key), directive, values)
    ensures forall k :: k in d.props && k != key ==> Upsert(req, d, key, directive, values).props[k] == d.props[k]
  {
    GetOrCreateUpsert(d, key);
  }

  /**
   * One parameter upserts one descriptor: a skipped parameter changes
   * nothing; any other adds at most the key KeyOf at the end of the order,
   * keeps the other descriptors and the order of the keys, and keeps the map valid.
   */
  lemma StepUpsert(req: Request, d: Descriptors, p: Param)
    requires d.Valid()
    ensures Skipped(req, p.name) ==> Step(req, d, p) == d
    ensures Step(req, d, p).Valid()
    ensures !Skipped(req, p.name) ==>
      var key := KeyOf(req, p.name);
      && Step(req, d, p).props.Keys == d.props.Keys + {key}
      && Step(req, d, p).order == (if key in d.props then d.order else d.order + [key])
      && forall k :: k in d.props && k != key ==> Step(req, d, p).props[k] == d.props[k]
  {
    if !Skipped(req, p.name) {
      var propPath := ToPropertyPath(req, p.name);
      var directive := Classify(propPath);
      UpsertShape(req, d, StripSuffix(propPath, SuffixOf(directive)), directive, p.values);
    }
  }

  /**
   * What one non-skipped parameter does to the descriptor at its key, starting
   * from the descriptor already there (or a new one): each directive sets its
   * own field only, and the five single-value directives change nothing unless
   * exactly one value was submitted.
   */
  lemma DirectiveEffect(req: Request, d: Descriptors, p: Param)
    requires !Skipped(req, p.name)
    ensures
      var propPath := ToPropertyPath(req, p.name);
      var key := KeyOf(req, p.name);
      var before := DescriptorFor(d, key);
      var after := Step(req, d, p).props[key];
      var vs := p.values;
      && ((Classify(propPath) in {ValueFrom, MoveFrom, CopyFrom, IgnoreBlanks, UseDefaultWhenMissing} && |vs| != 1)
            ==> after == before)
      && (Classify(propPath) == TypeHint ==>
            after == if |vs| > 0 then before.(typeHint := Some(vs[0])) else before)
      && (Classify(propPath) == DefaultValue ==> after == before.(defaultValues := vs))
      && (Classify(propPath) == ValueFrom && |vs| == 1 ==>
            after == match RequestParameters(req.params, vs[0])
                     case Some(refValues) => before.(values := refValues)
                     case None => before)
      && (Classify(propPath) == Delete ==> after == before.(delete := true))
      && (Classify(propPath) == MoveFrom && |vs| == 1 ==>
            after == before.(repositorySource := Some(Source(vs[0], true))))
      && (Classify(propPath) == CopyFrom && |vs| == 1 ==>
            after == before.(repositorySource := Some(Source(vs[0], false))))
      && (Classify(propPath) == IgnoreBlanks && |vs| == 1 ==> after == before.(ignoreBlanks := true))
      && (Classify(propPath) == UseDefaultWhenMissing && |vs| == 1 ==>
            after == before.(useDefaultWhenMissing := true))
      && (Classify(propPath) == Plain ==> after == before.(values := vs))
  {
  }

  /** One parameter keeps the keys seen so far, in their order, whether or not the map is valid. */
  lemma StepGrows(req: Request, d: Descriptors, p: Param)
    ensures d.order <= Step(req, d, p).order
    ensures d.props.Keys <= Step(req, d, p).props.Keys
  {
  }

  /** A key a parameter adds is that parameter's KeyOf, and the parameter was not skipped. */
  lemma StepNewKey(req: Request, d: Descriptors, p: Param, k: string)
    requires k in Step(req, d, p).props && k !in d.props
    ensures !Skipped(req, p.name) && KeyOf(req, p.name) == k
  {
  }

  /** The collected map is a valid ordered map after any number of parameters. */
  lemma {:induction false} CollectValid(req: Request, n: nat)
    requires n <= |req.params|
    ensures Collect(req, n).Valid()
  {
    if n > 0 {
      CollectValid(req, n - 1);
      StepUpsert(req, Collect(req, n - 1), req.params[n - 1]);
    }
  }

  /** Later parameters never reorder or drop the keys collected so far. */
  lemma {:induction false} CollectOrderStable(req: Request, m: nat, n: nat)
    requires m <= n <= |req.params|
    ensures Collect(req, m).order <= Collect(req, n).order
    ensures Collect(req, m).props.Keys <= Collect(req, n).props.Keys
    decreases n
  {
    if m < n {
      CollectOrderStable(req, m, n - 1);
      StepGrows(req, Collect(req, n - 1), req.params[n - 1]);
    }
  }

  /**
   * Every collected descriptor is keyed by KeyOf of some parameter that was
   * not skipped: reserved, charset and unprefixed parameters never produce one.
   */
  lemma {:induction false} CollectKeyOrigin(req: Request, n: nat, k: string)
    requires n <= |req.params|
    requires k in Collect(req, n).props
    ensures exists i :: 0 <= i < n && !Skipped(req, req.params[i].name) && KeyOf(req, req.params[i].name) == k
  {
    var p := req.params[n - 1];
    if k in Collect(req, n - 1).props {
      CollectKeyOrigin(req, n - 1, k);
    } else {
      StepNewKey(req, Collect(req, n - 1), p, k);
    }
  }

  /**
   * The converse of CollectKeyOrigin: every parameter that is not skipped has
   * a descriptor under its KeyOf in the collected map.
   */
  lemma CollectKeyPresent(req: Request, i: nat)
    requires i < |req.params|
    requires !Skipped(req, req.params[i].name)
    ensures KeyOf(req, req.params[i].name) in Collect(req, |req.params|).props
  {
    CollectValid(req, i);
    StepUpsert(req, Collect(req, i), req.params[i]);
    CollectOrderStable(req, i + 1, |req.params|);
  }
}
