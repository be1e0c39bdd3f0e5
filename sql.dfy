/** The text of the parameterised SQL statements the handlers issue, and
    the count of their `?` placeholders. */
module Sql {

  /** SQL text that holds no `?` placeholder. */
  type PlainText = s: string | '?' !in s

  /** The number of `?` placeholders in a statement. */
  function Placeholders(s: string): nat {
    if s == [] then 0 else (if s[0] == '?' then 1 else 0) + Placeholders(s[1..])
  }

  lemma {:induction false} PlaceholdersAppend(a: string, b: string)
    ensures Placeholders(a + b) == Placeholders(a) + Placeholders(b)
  {
    if a == [] {
      assert a + b == b;
    } else {
      assert (a + b)[1..] == a[1..] + b;
      PlaceholdersAppend(a[1..], b);
    }
  }

  lemma {:induction false} NoPlaceholders(s: string)
    requires '?' !in s
    ensures Placeholders(s) == 0
  {
    if s != [] {
      assert s[0] in s;
      assert forall c | c in s[1..] :: c in s;
      NoPlaceholders(s[1..]);
    }
  }

  /** `n` blanks of indentation. */
  function Spaces(n: nat): (r: PlainText)
    ensures |r| == n
  {
    if n == 0 then "" else " " + Spaces(n - 1)
  }

  /** The pieces of a statement, one after another. */
  function Concat(parts: seq<PlainText>): PlainText {
    if parts == [] then "" else parts[0] + Concat(parts[1..])
  }
}
