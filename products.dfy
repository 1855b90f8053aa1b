/** Product records as the table reads them, and the order their column values compare in. */
module Products {

  /** The five column headers that carry a sort handler. */
  datatype Column = Title | Price | Reviews | VideoCount | Timestamp

  /** One product as stored under its ASIN. Numbers are modelled as integers. */
  datatype Product = Product(
    asin: string,
    title: string,
    price: int,
    reviews: int,
    videoCount: int,
    timestamp: int,
    link: string)

  /** The value a column holds: a number, or text (the title). */
  datatype Key = Num(n: int) | Text(s: string)

  /** The value `p[column]` that the comparator reads. */
  function KeyOf(p: Product, column: Column): (k: Key)
    ensures k.Text? <==> column == Title
  {
    match column
    case Title => Text(p.title)
    case Price => Num(p.price)
    case Reviews => Num(p.reviews)
    case VideoCount => Num(p.videoCount)
    case Timestamp => Num(p.timestamp)
  }

  /** String `<`: character by character, a proper prefix before its extensions. */
  predicate TextLess(a: string, b: string)
  {
    if b == [] then false
    else if a == [] then true
    else if a[0] != b[0] then a[0] < b[0]
    else TextLess(a[1..], b[1..])
  }

  /** The `<` on column values: numeric on numbers, lexicographic on text. A number and a
      text never meet in one column; numbers are put first only to make the order total. */
  predicate KeyLess(x: Key, y: Key)
  {
    match (x, y)
    case (Num(m), Num(n)) => m < n
    case (Text(s), Text(t)) => TextLess(s, t)
    case (Num(_), Text(_)) => true
    case (Text(_), Num(_)) => false
  }

  lemma {:induction false} TextLessAsymmetric(a: string, b: string)
    ensures TextLess(a, b) ==> !TextLess(b, a)
  {
    if a != [] && b != [] && a[0] == b[0] {
      TextLessAsymmetric(a[1..], b[1..]);
    }
  }

  lemma {:induction false} TextLessTransitive(a: string, b: string, c: string)
    ensures TextLess(a, b) && TextLess(b, c) ==> TextLess(a, c)
  {
    if a != [] && b != [] && c != [] && a[0] == b[0] && b[0] == c[0] {
      TextLessTransitive(a[1..], b[1..], c[1..]);
    }
  }

  lemma {:induction false} TextLessTotal(a: string, b: string)
    ensures a == b || TextLess(a, b) || TextLess(b, a)
  {
    if a != [] && b != [] && a[0] == b[0] {
      TextLessTotal(a[1..], b[1..]);
      if a[1..] == b[1..] {
        assert a == [a[0]] + a[1..] && b == [b[0]] + b[1..];
      }
    }
  }

  /** Exactly one of `x < y`, `x == y`, `y < x` holds. */
  lemma KeyLessTrichotomy(x: Key, y: Key)
    ensures KeyLess(x, y) ==> !KeyLess(y, x) && x != y
    ensures x == y || KeyLess(x, y) || KeyLess(y, x)
  {
    if x.Text? && y.Text? {
      TextLessAsymmetric(x.s, y.s);
      TextLessAsymmetric(x.s, x.s);
      TextLessTotal(x.s, y.s);
    }
  }

  lemma KeyLessTransitive(x: Key, y: Key, z: Key)
    ensures KeyLess(x, y) && KeyLess(y, z) ==> KeyLess(x, z)
  {
    if x.Text? && y.Text? && z.Text? {
      TextLessTransitive(x.s, y.s, z.s);
    }
  }
}
