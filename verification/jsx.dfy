/** How React renders a child written `{x && <node/>}` when `x` is a number that
    may be `undefined`: `undefined` renders nothing, the number `0` renders the
    text "0" (a falsy number is still rendered), and any other number renders the
    node. */
module Jsx {
  import opened Wrappers
  import Text

  datatype Child<T> = Nothing | NumberText(n: int) | Node(node: T)

  /** `{x && node}` for an optional number `x`. */
  function AndNumber<T>(x: Option<int>, node: T): (c: Child<T>)
    ensures c.Nothing? <==> x.None?
    ensures c.Node? <==> x.Some? && x.value != 0
    ensures c.Node? ==> c.node == node
    ensures c.NumberText? ==> c.n == 0
  {
    match x
    case None => Nothing
    case Some(v) => if v == 0 then NumberText(0) else Node(node)
  }

  /** The visible text a child contributes on its own (a node's text is its own
      business). */
  function LooseText<T>(c: Child<T>): string
  {
    match c
    case NumberText(n) => Text.IntToString(n)
    case _ => ""
  }
}
