/** Three-way comparison and the lexicographic orders built from it
    (Rust's `Ord` on integers, characters, strings and slices). */
module Orders {

  /** `std::cmp::Ordering`. */
  datatype Ordering = Less | Equal | Greater {
    function Flip(): Ordering {
      match this
      case Less => Greater
      case Equal => Equal
      case Greater => Less
    }
  }

  /** Lexicographic comparison of two sequences under an element order: the
      first difference decides and a strict prefix is smaller (Rust's `Ord` on
      slices, arrays and strings). */
  function LexCompare<T>(a: seq<T>, b: seq<T>, cmp: (T, T) -> Ordering): Ordering
    decreases |a|
  {
    if a == [] && b == [] then Equal
    else if a == [] then Less
    else if b == [] then Greater
    else if cmp(a[0], b[0]) != Equal then cmp(a[0], b[0])
    else LexCompare(a[1..], b[1..], cmp)
  }

  /** Swapping the operands flips a lexicographic comparison. */
  lemma {:induction false} LexFlip<T>(a: seq<T>, b: seq<T>, cmp: (T, T) -> Ordering)
    requires forall x, y :: cmp(x, y) == cmp(y, x).Flip()
    ensures LexCompare(a, b, cmp) == LexCompare(b, a, cmp).Flip()
    decreases |a|
  {
    if a != [] && b != [] && cmp(a[0], b[0]) == Equal {
      LexFlip(a[1..], b[1..], cmp);
    }
  }

  /** A lexicographic comparison says Equal exactly for equal sequences. */
  lemma {:induction false} LexEqual<T>(a: seq<T>, b: seq<T>, cmp: (T, T) -> Ordering)
    requires forall x, y :: cmp(x, y) == Equal <==> x == y
    ensures LexCompare(a, b, cmp) == Equal <==> a == b
    decreases |a|
  {
    if a != [] && b != [] && cmp(a[0], b[0]) == Equal {
      LexEqual(a[1..], b[1..], cmp);
      assert a == [a[0]] + a[1..] && b == [b[0]] + b[1..];
    }
  }

  /** A lexicographic order is transitive when its element order is. */
  lemma {:induction false} LexTransitive<T>(a: seq<T>, b: seq<T>, c: seq<T>, cmp: (T, T) -> Ordering)
    requires forall x, y :: cmp(x, y) == Equal <==> x == y
    requires forall x, y, z :: cmp(x, y) == Less && cmp(y, z) == Less ==> cmp(x, z) == Less
    requires LexCompare(a, b, cmp) == Less && LexCompare(b, c, cmp) == Less
    ensures LexCompare(a, c, cmp) == Less
    decreases |a|
  {
    if a != [] && b != [] && c != [] {
      if cmp(a[0], b[0]) == Equal && cmp(b[0], c[0]) == Equal {
        LexTransitive(a[1..], b[1..], c[1..], cmp);
      }
    }
  }

  function CompareNat(a: nat, b: nat): Ordering {
    if a < b then Less else if a > b then Greater else Equal
  }

  function CompareChar(a: char, b: char): Ordering {
    if a < b then Less else if a > b then Greater else Equal
  }

  /** `String::cmp`: code-point (equivalently UTF-8 byte) lexicographic order. */
  function CompareStrings(a: string, b: string): Ordering {
    LexCompare(a, b, CompareChar)
  }

  lemma CompareStringsOrder(a: string, b: string, c: string)
    ensures CompareStrings(a, b) == CompareStrings(b, a).Flip()
    ensures CompareStrings(a, b) == Equal <==> a == b
    ensures CompareStrings(a, b) == Less && CompareStrings(b, c) == Less ==> CompareStrings(a, c) == Less
  {
    LexFlip(a, b, CompareChar);
    LexEqual(a, b, CompareChar);
    if CompareStrings(a, b) == Less && CompareStrings(b, c) == Less {
      LexTransitive(a, b, c, CompareChar);
    }
  }
}
