# props-provider, modelled in Dafny

`PropsProvider` is a React component that hands a property bag down to its
children. Its `render` walks the children: a falsy child is returned as it is;
an array becomes a `<div>` keyed with the current key prefix, each element
rendered under the prefix followed by its decimal index; a React element is
cloned with the ambient props merged under its own props and with the prefix as
its key; anything else is called as a function of the ambient props and the
element it returns is cloned with the prefix as its key. `validate`, attached
as the `propTypes` check of `children`, walks the same tree and returns the
first leaf that is not falsy, an element or a function.

Modules:

- `JsValues` (`js_values.dfy`): JavaScript values as the component tells them
  apart (`Falsy`, `Array`, `Element`, `Function`, `Other` with its `typeof`
  kind), property bags, and the rendered tree `Out` (`Blank`, the keyed `Group`
  that wraps an array, the `Clone` of an element).
- `Decimal` (`decimal.dfy`): the decimal text of an array index, as
  `keyStack + index` produces it, and its inverse `ParseDecimal`.
- `Renderer` (`render.dfy`): `render` as the function `Render`, the
  `{...props, ...element.props}` merge, keys, and what rendering promises.
- `Validator` (`validate.dfy`): `validate` as a method with the `forEach` loop
  and its short-circuit flag, proved equal to the first-error function
  `FirstError`, itself characterised against the independent predicate
  `WellShaped`.
- `Provider` (`props_provider.dfy`): the component, the `propTypes.children`
  hook, and the agreement of `render` and `validate`.

A function child is an opaque closure: the model names it by a `FunctionId`,
and what it returns when called is a parameter `call: (FunctionId, Props) ->
ReactElement` of every rendering function. Throwing is modelled as a `Result`:
calling a non-function at `src/PropsProvider.js:18` is the fault
`NotCallable(kind)`, and `Array.prototype.map` stops at the first child that
throws.

Behaviour of the code worth noting:

- Keys are unique among siblings only (`SiblingKeysDistinct`), not across the
  whole tree: child 2 of the group keyed `"1"` and child 12 of the root group
  both get the key `"12"` (`KeysRepeatAcrossLevels`).
- An array of falsy children still renders as a group, one `Blank` per child,
  and an empty array as an empty group (`RenderArray`).
- The error `validate` builds names only the `typeof` kind of the bad value, not
  the path to it.
- The ambient bag includes `children`, so an element child that has no
  `children` of its own receives the provider's whole `children` value
  (`ElementsReceiveProviderChildren`).

## Model

| member | source | states |
|---|---|---|
| Decimal.NatToString | src/PropsProvider.js:10 | the index text is a non-empty run of decimal digits with no leading zero |
| Decimal.ParseNatToString | src/PropsProvider.js:10 | reading the index text back yields the index |
| Decimal.NatToStringInjective | src/PropsProvider.js:10 | two indices have the same text exactly when they are equal |
| Renderer.ChildKey | src/PropsProvider.js:10 | a child's key is the parent prefix followed by the index text, so it strictly extends the prefix |
| Renderer.Merge | src/PropsProvider.js:15 | the merged bag has every name of both bags; the element's own value wins a clash, an ambient value is kept otherwise |
| Renderer.Render | src/PropsProvider.js:3-19 | `render` itself; described by RenderFalsy, RenderArray, RenderElement, RenderFunction, RenderKey and RenderAgreesWithValidate |
| Renderer.RenderItems | src/PropsProvider.js:9-11 | the `element.map` over an array; described by RenderItemsSpec and ItemsAgreeWithValidate |
| Renderer.RenderItemsSpec | src/PropsProvider.js:9-11 | mapping an array succeeds iff every child renders; it keeps length and order with child i rendered under prefix + i; a failure is that of the lowest failing index |
| Renderer.RenderFalsy | src/PropsProvider.js:4-5 | a falsy child comes back unchanged and unkeyed |
| Renderer.RenderArray | src/PropsProvider.js:6-13 | an array renders iff all its children do, as a group keyed with the prefix holding exactly one rendered child per element, in order, child i under prefix + i; an empty array gives an empty group |
| Renderer.RenderElement | src/PropsProvider.js:14-15 | an element is cloned with its own props overriding the ambient ones, no name of either bag dropped, and the prefix as its key whatever key it had |
| Renderer.RenderFunction | src/PropsProvider.js:18 | a function is called with exactly the ambient bag and its result keeps the props it returned, with the prefix as key |
| Renderer.RenderKey | src/PropsProvider.js:3-19 | whatever renders carries the current prefix as key, except a falsy child, which has none |
| Renderer.SiblingKeysDistinct | src/PropsProvider.js:7-12 | the keyed children of a group have pairwise distinct keys, each extending the group's key, and exactly the falsy children are unkeyed |
| Renderer.KeysRepeatAcrossLevels | src/PropsProvider.js:10 | keys nested at different depths can coincide ("1" then 2, and "" then 12, both give "12") |
| Validator.FirstError | src/PropsProvider.js:21-41 | what `validate` returns; described by FirstErrorNoneIffWellShaped, OtherRejected and Validate |
| Validator.FirstErrorIn | src/PropsProvider.js:25-32 | the error the `forEach` leaves behind; described by FirstErrorInNoneIffWellShaped, FirstErrorInLowestIndex and LaterElementsIgnored |
| Validator.Validate | src/PropsProvider.js:21-41 | the loop with its short-circuit flag returns exactly the first error `FirstError` defines |
| Validator.FirstErrorNoneIffWellShaped | src/PropsProvider.js:21-41 | validation reports nothing iff every leaf reachable through nested arrays is falsy, an element or a function |
| Validator.FirstErrorInNoneIffWellShaped | src/PropsProvider.js:24-32 | an array reports nothing iff every element is well shaped |
| Validator.FirstErrorInLowestIndex | src/PropsProvider.js:25-32 | an array's error is that of its lowest-index element with an error, and none if no element has one |
| Validator.LaterElementsIgnored | src/PropsProvider.js:26 | once an error is found, appending further elements does not change the result |
| Validator.OtherRejected | src/PropsProvider.js:33-37 | any other truthy value is rejected with an error naming its `typeof` kind |
| Provider.ChildrenOf | src/PropsProvider.js:43-49 | `props.children`, an absent property reading as falsy `undefined`; used by PropsProvider and ChildrenPropType |
| Provider.RenderAgreesWithValidate | src/PropsProvider.js:3-41 | render reaches no call of a non-function iff validate reports nothing, and on failure both name the same kind |
| Provider.ItemsAgreeWithValidate | src/PropsProvider.js:6-32 | the same agreement for the elements of an array, first failure against first error |
| Provider.PropsProvider | src/PropsProvider.js:43-45 | the component renders its children iff they validate, and the result is keyed with the empty prefix unless the children are falsy |
| Provider.ChildrenPropType | src/PropsProvider.js:47-49 | the hook validates the bag's `children`, ignoring the property and component names, and accepts exactly well-shaped children |
| Provider.AcceptedChildrenRender | src/PropsProvider.js:43-49 | children the hook accepts render without a fault |
| Provider.ElementsReceiveProviderChildren | src/PropsProvider.js:43-45 | an element child without its own `children` receives the provider's whole `children` value, keyed by its index |

## Left out

- React's element machinery (`React.cloneElement`, `React.isValidElement`, the
  JSX `<div>`) is replaced by the `ReactElement` record and the `Group` and
  `Clone` outputs; the special handling of `key` and `ref` inside
  `cloneElement` is not modelled because React never stores them in a props bag.
- Only the props and key of a React element are modelled, not its element type
  or `ref`, so the model does not state that a clone keeps the type of the
  element it copies.
- JavaScript truthiness: every falsy value (`false`, `null`, `undefined`, `0`,
  `-0`, `0n`, `NaN`, `""`) is the single `Falsy`, so the model does not say which falsy
  value is handed back.
- What a function child returns is assumed to be one React element, as the
  code assumes without checking; a function that returns an array, a falsy
  value or another function is not modelled.
- The error's message text and the console-warning path of the host's
  `propTypes` mechanism are not modelled; the error carries the `typeof` kind
  only.
- The test file attaches `PropsProvider.PropType`, a name the component does not
  define, and expects a message with a path that this code never builds; that
  test's expectation is not modelled.
- Mounting, DOM text extraction and the test harness are I/O, not logic.
