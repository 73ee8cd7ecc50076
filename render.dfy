/** `render`: injects a property bag into a tree of children, keying every
    rendered child with its positional path. */
module Renderer {
  import opened JsValues
  import Decimal

  /** Why rendering stops: the fall-through calls a value that is not a
      function, which throws a `TypeError` ("element is not a function"); the
      `typeof` kind stands in for the value the call failed on. */
  datatype Fault = NotCallable(kind: Kind)

  predicate IsPrefix(p: string, s: string)
  {
    |p| <= |s| && s[..|p|] == p
  }

  /** The key of the child at `index` under `keyStack`: string concatenation
      of the decimal index, not numeric addition. */
  function ChildKey(keyStack: string, index: nat): (key: string)
    ensures IsPrefix(keyStack, key) && |key| > |keyStack|
    ensures key[|keyStack|..] == Decimal.NatToString(index)
  {
    keyStack + Decimal.NatToString(index)
  }

  /** `{ ...ambient, ...own }`: every name of either bag survives, and on a
      clash the element's own value wins. */
  function Merge(ambient: Props, own: Props): (merged: Props)
    ensures merged.Keys == ambient.Keys + own.Keys
    ensures forall name :: name in own ==> merged[name] == own[name]
    ensures forall name :: name in ambient && name !in own ==> merged[name] == ambient[name]
  {
    ambient + own
  }

  function Render(v: Value, props: Props, keyStack: string, call: Caller): Result<Out, Fault>
    decreases v, 1
  {
    match v
    case Falsy => Ok(Blank)
    case Array(items) =>
      var kids := RenderItems(items, props, keyStack, call);
      if kids.Err? then Err(kids.error) else Ok(Group(keyStack, kids.value))
    case Element(e) => Ok(Clone(Merge(props, e.props), keyStack))
    case Function(id) => Ok(Clone(call(id, props).props, keyStack))
    case Other(kind) => Err(NotCallable(kind))
  }

  /** `items.map((x, index) => render(x, props, keyStack + index))`, which
      evaluates left to right and stops at the first throw. */
  function RenderItems(items: seq<Value>, props: Props, keyStack: string, call: Caller): Result<seq<Out>, Fault>
    decreases items, 0
  {
    if |items| == 0 then Ok([])
    else
      var front := RenderItems(items[..|items| - 1], props, keyStack, call);
      if front.Err? then front
      else
        var last := Render(items[|items| - 1], props, ChildKey(keyStack, |items| - 1), call);
        if last.Err? then Err(last.error) else Ok(front.value + [last.value])
  }

  /** The rendering of child `i` of an array under `keyStack`. */
  function RenderChild(items: seq<Value>, i: nat, props: Props, keyStack: string, call: Caller): Result<Out, Fault>
    requires i < |items|
  {
    Render(items[i], props, ChildKey(keyStack, i), call)
  }

  /** Mapping an array succeeds exactly when every child renders; it then
      keeps length and order, child `i` rendered under `keyStack + i`; a
      failure is the failure of the lowest-index child that fails. */
  lemma {:induction false} RenderItemsSpec(items: seq<Value>, props: Props, keyStack: string, call: Caller)
    ensures RenderItems(items, props, keyStack, call).Ok? <==>
      forall i :: 0 <= i < |items| ==> RenderChild(items, i, props, keyStack, call).Ok?
    ensures var r := RenderItems(items, props, keyStack, call);
      r.Ok? ==> |r.value| == |items|
    ensures var r := RenderItems(items, props, keyStack, call);
      r.Ok? ==> forall i :: 0 <= i < |items| ==> r.value[i] == RenderChild(items, i, props, keyStack, call).value
    ensures var r := RenderItems(items, props, keyStack, call);
      r.Err? ==> exists i :: FirstFailure(items, i, props, keyStack, call, r.error)
    decreases |items|
  {
    if |items| > 0 {
      var n := |items| - 1;
      var front := items[..n];
      RenderItemsSpec(front, props, keyStack, call);
      forall i | 0 <= i < n
        ensures RenderChild(front, i, props, keyStack, call) == RenderChild(items, i, props, keyStack, call)
      {
      }
      var r := RenderItems(items, props, keyStack, call);
      var fr := RenderItems(front, props, keyStack, call);
      if fr.Err? {
        var i :| FirstFailure(front, i, props, keyStack, call, fr.error);
        assert FirstFailure(items, i, props, keyStack, call, r.error);
      } else if RenderChild(items, n, props, keyStack, call).Err? {
        assert FirstFailure(items, n, props, keyStack, call, r.error);
      }
    }
  }

  /** Child `i` is the first child of `items` whose rendering fails, and it
      fails with `fault`. */
  predicate FirstFailure(items: seq<Value>, i: int, props: Props, keyStack: string, call: Caller, fault: Fault)
  {
    0 <= i < |items| && RenderChild(items, i, props, keyStack, call) == Err(fault) &&
    forall j :: 0 <= j < i ==> RenderChild(items, j, props, keyStack, call).Ok?
  }

  /** A falsy child comes back unchanged and carries no key. */
  lemma RenderFalsy(props: Props, keyStack: string, call: Caller)
    ensures Render(Falsy, props, keyStack, call) == Ok(Blank)
    ensures KeyOf(Render(Falsy, props, keyStack, call).value).None?
  {
  }

  /** An array becomes a `<div>` keyed with the prefix holding exactly one
      rendered child per element, in order, child `i` keyed `keyStack + i`;
      an empty array still becomes an (empty) group. */
  lemma RenderArray(items: seq<Value>, props: Props, keyStack: string, call: Caller)
    ensures Render(Array(items), props, keyStack, call).Ok? <==>
      forall i :: 0 <= i < |items| ==> RenderChild(items, i, props, keyStack, call).Ok?
    ensures var r := Render(Array(items), props, keyStack, call);
      r.Ok? ==> r.value.Group? && r.value.key == keyStack && |r.value.kids| == |items|
    ensures var r := Render(Array(items), props, keyStack, call);
      r.Ok? ==> forall i :: 0 <= i < |items| ==> r.value.kids[i] == RenderChild(items, i, props, keyStack, call).value
  {
    RenderItemsSpec(items, props, keyStack, call);
  }

  /** A React element is cloned with the ambient bag merged under its own
      props and its key replaced by the prefix, whatever key it carried. */
  lemma RenderElement(e: ReactElement, props: Props, keyStack: string, call: Caller)
    ensures var r := Render(Element(e), props, keyStack, call);
      r.Ok? && r.value.Clone? && r.value.key == keyStack &&
      r.value.props.Keys == props.Keys + e.props.Keys &&
      (forall name :: name in e.props ==> r.value.props[name] == e.props[name]) &&
      (forall name :: name in props && name !in e.props ==> r.value.props[name] == props[name])
  {
  }

  /** A function is called with exactly the ambient bag; its result keeps the
      props the function gave it and only its key changes. */
  lemma RenderFunction(id: FunctionId, props: Props, keyStack: string, call: Caller)
    ensures var r := Render(Function(id), props, keyStack, call);
      r.Ok? && r.value.Clone? && r.value.key == keyStack && r.value.props == call(id, props).props
  {
  }

  /** Whatever renders carries the current prefix as its key, unless it was a
      falsy child. */
  lemma RenderKey(v: Value, props: Props, keyStack: string, call: Caller)
    requires Render(v, props, keyStack, call).Ok?
    ensures KeyOf(Render(v, props, keyStack, call).value) == if v.Falsy? then None else Some(keyStack)
  {
    if v.Array? {
      RenderArray(v.items, props, keyStack, call);
    }
  }

  /** The keyed children of a rendered array have pairwise distinct keys, each
      extending the group's own key; exactly the falsy children are unkeyed. */
  lemma {:induction false} SiblingKeysDistinct(items: seq<Value>, props: Props, keyStack: string, call: Caller)
    requires Render(Array(items), props, keyStack, call).Ok?
    ensures var kids := Render(Array(items), props, keyStack, call).value.kids;
      |kids| == |items| &&
      (forall i :: 0 <= i < |items| ==> (KeyOf(kids[i]).Some? <==> !items[i].Falsy?)) &&
      (forall i :: 0 <= i < |items| && KeyOf(kids[i]).Some? ==> IsPrefix(keyStack, KeyOf(kids[i]).value)) &&
      (forall i, j :: 0 <= i < j < |items| && KeyOf(kids[i]).Some? && KeyOf(kids[j]).Some? ==>
        KeyOf(kids[i]) != KeyOf(kids[j]))
  {
    RenderArray(items, props, keyStack, call);
    var kids := Render(Array(items), props, keyStack, call).value.kids;
    forall i | 0 <= i < |items|
      ensures KeyOf(kids[i]) == if items[i].Falsy? then None else Some(ChildKey(keyStack, i))
    {
      assert RenderChild(items, i, props, keyStack, call).Ok?;
      RenderKey(items[i], props, ChildKey(keyStack, i), call);
    }
    forall i, j | 0 <= i < j < |items| && KeyOf(kids[i]).Some? && KeyOf(kids[j]).Some?
      ensures KeyOf(kids[i]) != KeyOf(kids[j])
    {
      Decimal.NatToStringInjective(i, j);
      assert ChildKey(keyStack, i)[|keyStack|..] != ChildKey(keyStack, j)[|keyStack|..];
    }
  }

  /** Keys are unique among siblings only, not across the tree: child 2 of
      the group keyed "1" and child 12 of the root group share the key "12". */
  lemma KeysRepeatAcrossLevels()
    ensures ChildKey(ChildKey("", 1), 2) == ChildKey("", 12) == "12"
  {
  }
}
