/** The `PropsProvider` component and its `propTypes.children` hook, and how
    `render` and `validate` agree on which trees they accept. */
module Provider {
  import opened JsValues
  import opened Renderer
  import opened Validator

  /** `props.children`; an absent property reads as `undefined`, which is
      falsy. */
  function ChildrenOf(props: Props): Value
  {
    if "children" in props then props["children"] else Falsy
  }

  /** A tree renders without reaching the fall-through on a non-function
      exactly when `validate` reports nothing, and when it fails it fails on
      the same value `validate` names. */
  lemma {:induction false} RenderAgreesWithValidate(v: Value, props: Props, keyStack: string, call: Caller)
    ensures Render(v, props, keyStack, call).Ok? <==> FirstError(v).None?
    ensures Render(v, props, keyStack, call).Err? ==>
      Render(v, props, keyStack, call).error.kind == FirstError(v).value.given
    decreases v, 1
  {
    if v.Array? {
      ItemsAgreeWithValidate(v.items, props, keyStack, call);
    }
  }

  lemma {:induction false} ItemsAgreeWithValidate(items: seq<Value>, props: Props, keyStack: string, call: Caller)
    ensures RenderItems(items, props, keyStack, call).Ok? <==> FirstErrorIn(items).None?
    ensures RenderItems(items, props, keyStack, call).Err? ==>
      RenderItems(items, props, keyStack, call).error.kind == FirstErrorIn(items).value.given
    decreases items, 0
  {
    if |items| > 0 {
      var n := |items| - 1;
      ItemsAgreeWithValidate(items[..n], props, keyStack, call);
      RenderAgreesWithValidate(items[n], props, ChildKey(keyStack, n), call);
    }
  }

  /** The component: renders its `children` under the empty key prefix, with
      its whole props bag, `children` included, as the ambient properties. */
  function PropsProvider(props: Props, call: Caller): (r: Result<Out, Fault>)
    ensures r.Ok? <==> FirstError(ChildrenOf(props)).None?
    ensures r.Ok? ==> KeyOf(r.value) == if ChildrenOf(props).Falsy? then None else Some("")
  {
    RenderAgreesWithValidate(ChildrenOf(props), props, "", call);
    var r := Render(ChildrenOf(props), props, "", call);
    if r.Ok? then RenderKey(ChildrenOf(props), props, "", call); r else r
  }

  /** `propTypes.children`: validates the `children` of the props bag, and
      ignores the property and component names it is handed. */
  method ChildrenPropType(props: Props, propName: string, componentName: string) returns (error: Option<ShapeError>)
    ensures error == FirstError(ChildrenOf(props))
    ensures error.None? <==> WellShaped(ChildrenOf(props))
  {
    error := Validate(ChildrenOf(props));
    FirstErrorNoneIffWellShaped(ChildrenOf(props));
  }

  /** Whatever the hook accepts, the component renders without a fault. */
  lemma AcceptedChildrenRender(props: Props, call: Caller)
    requires WellShaped(ChildrenOf(props))
    ensures PropsProvider(props, call).Ok?
  {
    FirstErrorNoneIffWellShaped(ChildrenOf(props));
  }

  /** Because the ambient bag includes `children`, an element among the
      children that has no `children` of its own receives the provider's
      whole `children` value as one. */
  lemma ElementsReceiveProviderChildren(props: Props, items: seq<Value>, i: nat, call: Caller)
    requires ChildrenOf(props) == Array(items)
    requires i < |items| && items[i].Element? && "children" !in items[i].element.props
    requires PropsProvider(props, call).Ok?
    ensures PropsProvider(props, call).value.Group? && |PropsProvider(props, call).value.kids| == |items|
    ensures var kid := PropsProvider(props, call).value.kids[i];
      kid.Clone? && kid.key == ChildKey("", i) && "children" in kid.props && kid.props["children"] == Array(items)
  {
    RenderArray(items, props, "", call);
    assert RenderChild(items, i, props, "", call).Ok?;
  }
}
