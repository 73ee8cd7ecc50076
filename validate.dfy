/** `validate`: checks that every child reachable through nested arrays is
    falsy, a React element or a function, and reports the first one that is
    not. */
module Validator {
  import opened JsValues

  /** The error `validate` builds: its message names the `typeof` kind of the
      offending value. */
  datatype ShapeError = ShapeError(given: Kind)

  /** Every leaf reachable through nested arrays is falsy, an element or a
      function. */
  ghost predicate WellShaped(v: Value)
  {
    match v
    case Other(_) => false
    case Array(items) => forall i :: 0 <= i < |items| ==> WellShaped(items[i])
    case _ => true
  }

  /** The error `validate` returns for `v`: that of the first bad leaf in
      depth-first, index order. */
  function FirstError(v: Value): Option<ShapeError>
    decreases v, 1
  {
    match v
    case Falsy => None
    case Array(items) => FirstErrorIn(items)
    case Element(_) => None
    case Function(_) => None
    case Other(kind) => Some(ShapeError(kind))
  }

  /** The first error among `items`, the later ones unexamined once one is
      found. */
  function FirstErrorIn(items: seq<Value>): Option<ShapeError>
    decreases items, 0
  {
    if |items| == 0 then None
    else
      var front := FirstErrorIn(items[..|items| - 1]);
      if front.Some? then front else FirstError(items[|items| - 1])
  }

  /** The `forEach` walk with its `if (!error)` short-circuit flag. */
  method Validate(element: Value) returns (error: Option<ShapeError>)
    ensures error == FirstError(element)
    decreases element
  {
    error := None;
    if !element.Falsy? {
      if element.Array? {
        var items := element.items;
        var i := 0;
        while i < |items|
          invariant 0 <= i <= |items|
          invariant error == FirstErrorIn(items[..i])
        {
          if error.None? {
            var result := Validate(items[i]);
            if result.Some? {
              error := result;
            }
          }
          assert items[..i + 1][..i] == items[..i];
          i := i + 1;
        }
        assert items[..|items|] == items;
      } else if !element.Element? && !element.Function? {
        error := Some(ShapeError(element.kind));
      }
    }
  }

  /** `validate` reports nothing exactly when the tree is well shaped. */
  lemma {:induction false} FirstErrorNoneIffWellShaped(v: Value)
    ensures FirstError(v).None? <==> WellShaped(v)
    decreases v, 1
  {
    if v.Array? {
      FirstErrorInNoneIffWellShaped(v.items);
    }
  }

  lemma {:induction false} FirstErrorInNoneIffWellShaped(items: seq<Value>)
    ensures FirstErrorIn(items).None? <==> forall i :: 0 <= i < |items| ==> WellShaped(items[i])
    decreases items, 0
  {
    if |items| > 0 {
      var n := |items| - 1;
      FirstErrorInNoneIffWellShaped(items[..n]);
      FirstErrorNoneIffWellShaped(items[n]);
      assert forall i :: 0 <= i < n ==> items[..n][i] == items[i];
    }
  }

  /** For an array, the error is that of the lowest-index element that has
      one, and none when no element has one. */
  lemma {:induction false} FirstErrorInLowestIndex(items: seq<Value>)
    ensures (forall i :: 0 <= i < |items| ==> FirstError(items[i]).None?) ==> FirstErrorIn(items).None?
    ensures forall i :: LowestBad(items, i) ==> FirstErrorIn(items) == FirstError(items[i])
    decreases |items|
  {
    if |items| > 0 {
      var n := |items| - 1;
      FirstErrorInLowestIndex(items[..n]);
      assert forall i :: 0 <= i < n ==> items[..n][i] == items[i];
    }
  }

  /** Element `i` is the lowest-index element of `items` with an error. */
  predicate LowestBad(items: seq<Value>, i: int)
  {
    0 <= i < |items| && FirstError(items[i]).Some? &&
    forall j :: 0 <= j < i ==> FirstError(items[j]).None?
  }

  /** Once an error is found, later elements cannot change the result. */
  lemma {:induction false} LaterElementsIgnored(items: seq<Value>, later: seq<Value>)
    requires FirstErrorIn(items).Some?
    ensures FirstErrorIn(items + later) == FirstErrorIn(items)
    decreases |later|
  {
    if |later| > 0 {
      var n := |later| - 1;
      assert (items + later)[..|items| + n] == items + later[..n];
      LaterElementsIgnored(items, later[..n]);
    } else {
      assert items + later == items;
    }
  }

  /** A truthy value of any other kind is rejected, naming its `typeof`. */
  lemma OtherRejected(kind: Kind)
    ensures FirstError(Other(kind)) == Some(ShapeError(kind))
    ensures !WellShaped(Other(kind))
  {
  }
}
