/** How a sketch came about: by adding items one at a time and by merging sketches, in any mixture. */
module Feeds {

  datatype Feed<T> = Start | Added(rest: Feed<T>, item: T) | Joined(left: Feed<T>, right: Feed<T>)

  function Items<T>(f: Feed<T>): set<T> {
    match f
    case Start => {}
    case Added(rest, item) => Items(rest) + {item}
    case Joined(left, right) => Items(left) + Items(right)
  }

  function AddedAll<T>(f: Feed<T>, items: seq<T>): Feed<T> {
    if items == [] then f else Added(AddedAll(f, items[..|items| - 1]), items[|items| - 1])
  }

  function Max(a: int, b: int): int {
    if a >= b then a else b
  }
}
