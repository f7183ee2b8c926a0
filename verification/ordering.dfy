/** How the database, taken to be PostgreSQL, orders rows of `questions`
    by one column: the column a name designates, the key each row has in
    that column, and the total preorder on keys (integers and timestamps
    numerically, text by code point, the difficulty enum in declaration
    order, NULL above every value). */
module Ordering {
  import opened Runtime
  import opened Models

  /** The columns of `questions`, under the attribute names of the ORM class. */
  datatype Column = Id | Text | Snippet | CreatedAt | UpdatedAt | Subdomain | Explanation | Level

  function ColumnName(c: Column): string {
    match c
    case Id => "id"
    case Text => "text"
    case Snippet => "snippet"
    case CreatedAt => "created_at"
    case UpdatedAt => "updated_at"
    case Subdomain => "subdomain"
    case Explanation => "explanation"
    case Level => "level"
  }

  /** `getattr(Question, name)` restricted to columns: the column that has this
      name, if any. */
  function ParseColumn(name: string): (r: Option<Column>)
    ensures r.Some? ==> ColumnName(r.value) == name
    ensures r.None? ==> forall c: Column :: ColumnName(c) != name
  {
    if name == "id" then Some(Id)
    else if name == "text" then Some(Text)
    else if name == "snippet" then Some(Snippet)
    else if name == "created_at" then Some(CreatedAt)
    else if name == "updated_at" then Some(UpdatedAt)
    else if name == "subdomain" then Some(Subdomain)
    else if name == "explanation" then Some(Explanation)
    else if name == "level" then Some(Level)
    else None
  }

  /** Column names are distinct, so a column is found again by its name. */
  lemma ParseColumnName(c: Column)
    ensures ParseColumn(ColumnName(c)) == Some(c)
  {
  }

  /** The value a row has in a column, as far as ordering is concerned. */
  datatype Key = IntKey(n: int) | StrKey(s: string) | NullKey

  /** A PostgreSQL enum sorts in the order its labels were declared. */
  function LevelRank(l: DifficultyLevel): (n: int)
    ensures 0 <= n < 3
    ensures l == Easy <==> n == 0
    ensures l == Hard <==> n == 2
  {
    match l
    case Easy => 0
    case Moderate => 1
    case Hard => 2
  }

  /** Two difficulty levels never tie in the enum order. */
  lemma LevelRankInjective(a: DifficultyLevel, b: DifficultyLevel)
    ensures LevelRank(a) == LevelRank(b) <==> a == b
  {
  }

  function OptionalKey(s: Option<string>): Key {
    match s
    case None => NullKey
    case Some(v) => StrKey(v)
  }

  function KeyOf(q: Question, c: Column): Key {
    match c
    case Id => IntKey(q.id)
    case Text => StrKey(q.text)
    case Snippet => OptionalKey(q.snippet)
    case CreatedAt => IntKey(q.createdAt)
    case UpdatedAt => IntKey(q.updatedAt)
    case Subdomain => StrKey(q.subdomain)
    case Explanation => OptionalKey(q.explanation)
    case Level => IntKey(LevelRank(q.level))
  }

  /** Lexicographic order of strings by code point: a prefix comes first. */
  predicate StrLe(a: string, b: string)
    decreases |a|
  {
    a == [] || (b != [] && (a[0] < b[0] || (a[0] == b[0] && StrLe(a[1..], b[1..]))))
  }

  lemma {:induction false} StrLeTotal(a: string, b: string)
    ensures StrLe(a, b) || StrLe(b, a)
    decreases |a|
  {
    if a != [] && b != [] && a[0] == b[0] {
      StrLeTotal(a[1..], b[1..]);
    }
  }

  lemma {:induction false} StrLeTransitive(a: string, b: string, c: string)
    requires StrLe(a, b) && StrLe(b, c)
    ensures StrLe(a, c)
    decreases |a|
  {
    if a != [] && b != [] && c != [] && a[0] == b[0] && b[0] == c[0] {
      StrLeTransitive(a[1..], b[1..], c[1..]);
    }
  }

  lemma {:induction false} StrLeAntisymmetric(a: string, b: string)
    requires StrLe(a, b) && StrLe(b, a)
    ensures a == b
    decreases |a|
  {
    if a != [] && b != [] {
      StrLeAntisymmetric(a[1..], b[1..]);
      assert a == [a[0]] + a[1..] && b == [b[0]] + b[1..];
    }
  }

  /** Ascending key order. NULL is above every value, so it comes last in an
      ascending sort and first in a descending one. Integer and string keys
      never meet in one column; the order between them only makes it total. */
  predicate KeyLe(a: Key, b: Key) {
    match (a, b)
    case (_, NullKey) => true
    case (NullKey, _) => false
    case (IntKey(x), IntKey(y)) => x <= y
    case (StrKey(x), StrKey(y)) => StrLe(x, y)
    case (IntKey(_), StrKey(_)) => true
    case (StrKey(_), IntKey(_)) => false
  }

  lemma KeyLeTotal(a: Key, b: Key)
    ensures KeyLe(a, b) || KeyLe(b, a)
  {
    if a.StrKey? && b.StrKey? {
      StrLeTotal(a.s, b.s);
    }
  }

  lemma KeyLeTransitive(a: Key, b: Key, c: Key)
    requires KeyLe(a, b) && KeyLe(b, c)
    ensures KeyLe(a, c)
  {
    if a.StrKey? && b.StrKey? && c.StrKey? {
      StrLeTransitive(a.s, b.s, c.s);
    }
  }

  /** Two keys each ordered before the other are the same key. */
  lemma KeyLeAntisymmetric(a: Key, b: Key)
    requires KeyLe(a, b) && KeyLe(b, a)
    ensures a == b
  {
    if a.StrKey? && b.StrKey? {
      StrLeAntisymmetric(a.s, b.s);
    }
  }

  /** Row `x` may precede row `y` in a listing ordered by column `c` in
      direction `d` (ties may come in either order). */
  predicate Before(x: Question, y: Question, c: Column, d: OrderDirection) {
    if d == Asc then KeyLe(KeyOf(x, c), KeyOf(y, c)) else KeyLe(KeyOf(y, c), KeyOf(x, c))
  }

  lemma BeforeTotal(x: Question, y: Question, c: Column, d: OrderDirection)
    ensures Before(x, y, c, d) || Before(y, x, c, d)
  {
    KeyLeTotal(KeyOf(x, c), KeyOf(y, c));
  }

  lemma BeforeTransitive(x: Question, y: Question, z: Question, c: Column, d: OrderDirection)
    requires Before(x, y, c, d) && Before(y, z, c, d)
    ensures Before(x, z, c, d)
  {
    if d == Asc {
      KeyLeTransitive(KeyOf(x, c), KeyOf(y, c), KeyOf(z, c));
    } else {
      KeyLeTransitive(KeyOf(z, c), KeyOf(y, c), KeyOf(x, c));
    }
  }

  /** Rows that may each precede the other tie on the column. */
  lemma BeforeAntisymmetric(x: Question, y: Question, c: Column, d: OrderDirection)
    requires Before(x, y, c, d) && Before(y, x, c, d)
    ensures KeyOf(x, c) == KeyOf(y, c)
  {
    KeyLeAntisymmetric(KeyOf(x, c), KeyOf(y, c));
  }

  /** No two different rows of `rows` tie on column `c`, so ORDER BY `c`
      leaves no choice of order among them. */
  predicate KeyUnique(rows: seq<Question>, c: Column) {
    forall x, y | x in rows && y in rows && KeyOf(x, c) == KeyOf(y, c) :: x == y
  }
}
