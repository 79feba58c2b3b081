/** JavaScript's `<` on strings, a proper prefix coming first. The report
    routes sort by it. JavaScript compares UTF-16 code units; this order
    compares characters, and the two agree when neither string holds a
    character outside the Basic Multilingual Plane. */
module LexOrder {

  predicate LexLess(a: string, b: string)
    decreases |a|
  {
    if a == [] then b != []
    else if b == [] then false
    else if a[0] != b[0] then a[0] < b[0]
    else LexLess(a[1..], b[1..])
  }

  lemma {:induction false} LexIrreflexive(a: string)
    ensures !LexLess(a, a)
    decreases |a|
  {
    if a != [] {
      LexIrreflexive(a[1..]);
    }
  }

  lemma {:induction false} LexAsymmetric(a: string, b: string)
    requires LexLess(a, b)
    ensures !LexLess(b, a)
    decreases |a|
  {
    if a != [] && b != [] && a[0] == b[0] {
      LexAsymmetric(a[1..], b[1..]);
    }
  }

  /** Two different strings are ordered one way or the other. */
  lemma {:induction false} LexTotal(a: string, b: string)
    requires a != b
    ensures LexLess(a, b) || LexLess(b, a)
    decreases |a|
  {
    if a != [] && b != [] && a[0] == b[0] {
      assert a == [a[0]] + a[1..] && b == [b[0]] + b[1..];
      LexTotal(a[1..], b[1..]);
    }
  }

  lemma {:induction false} LexTransitive(a: string, b: string, c: string)
    requires LexLess(a, b) && LexLess(b, c)
    ensures LexLess(a, c)
    decreases |a|
  {
    if a != [] && b != [] && c != [] && a[0] == b[0] && b[0] == c[0] {
      LexTransitive(a[1..], b[1..], c[1..]);
    }
  }

  /** Year-month keys of the same width compare as their numbers do:
      "2024-02" comes before "2024-10" and "2025-01". */
  lemma MonthKeysInOrder()
    ensures LexLess("2024-02", "2024-10") && LexLess("2024-10", "2025-01")
  {
    assert "2024-02"[1..] == "024-02" && "024-02"[1..] == "24-02" && "24-02"[1..] == "4-02";
    assert "4-02"[1..] == "-02" && "-02"[1..] == "02";
    assert "2024-10"[1..] == "024-10" && "024-10"[1..] == "24-10" && "24-10"[1..] == "4-10";
    assert "4-10"[1..] == "-10" && "-10"[1..] == "10";
    assert "2025-01"[1..] == "025-01" && "025-01"[1..] == "25-01";
  }
}
