/**
 * Names of the indexed vector families of a System. add_adjoint_solution(i),
 * add_sensitivity_solution(i), add_weighted_sensitivity_adjoint_solution(i),
 * add_adjoint_rhs(i) and add_sensitivity_rhs(i) each store their vector
 * under a family prefix followed by the decimal index;
 * add_weighted_sensitivity_solution() has no index. The prefixes below
 * stand in for the literal strings of the library's implementation file,
 * which is not part of this model: what the model relies on is that the
 * naming is injective, which FamilyNameInjective proves.
 */
module VectorNames {

  datatype Family =
    | AdjointSolution
    | SensitivitySolution
    | WeightedSensitivityAdjointSolution
    | AdjointRhs
    | SensitivityRhs

  /** One vector of a family: an indexed one, or the single weighted sensitivity solution. */
  datatype FamilyKey = Indexed(family: Family, index: nat) | WeightedSensitivitySolution

  predicate IsDigit(c: char) { '0' <= c <= '9' }

  function Digit(d: nat): (c: char)
    requires d < 10
    ensures IsDigit(c)
  {
    ('0' as int + d) as char
  }

  /** The decimal representation of n, as an output stream writes an unsigned integer. */
  function Decimal(n: nat): (s: string)
    ensures |s| > 0
    ensures forall k :: 0 <= k < |s| ==> IsDigit(s[k])
  {
    if n < 10 then [Digit(n)] else Decimal(n / 10) + [Digit(n % 10)]
  }

  /** Different numbers print differently. */
  lemma {:induction false} DecimalInjective(a: nat, b: nat)
    requires Decimal(a) == Decimal(b)
    ensures a == b
  {
    var da, db := Decimal(a), Decimal(b);
    assert da[|da| - 1] == Digit(a % 10) && db[|db| - 1] == Digit(b % 10);
    if a >= 10 && b >= 10 {
      assert Decimal(a / 10) == da[..|da| - 1] == db[..|db| - 1] == Decimal(b / 10);
      DecimalInjective(a / 10, b / 10);
    }
  }

  function Prefix(f: Family): string
  {
    match f
    case AdjointSolution => "adjoint_solution"
    case SensitivitySolution => "sensitivity_solution"
    case WeightedSensitivityAdjointSolution => "weighted_sensitivity_adjoint_solution"
    case AdjointRhs => "adjoint_rhs"
    case SensitivityRhs => "sensitivity_rhs"
  }

  const WeightedSensitivitySolutionName: string := "weighted_sensitivity_solution"

  predicate NoDigits(s: string)
  {
    forall k :: 0 <= k < |s| ==> !IsDigit(s[k])
  }

  /** The name under which a family vector is stored. */
  function FamilyName(key: FamilyKey): string
  {
    match key
    case Indexed(f, i) => Prefix(f) + Decimal(i)
    case WeightedSensitivitySolution => WeightedSensitivitySolutionName
  }

  lemma PrefixesHaveNoDigits(f: Family)
    ensures |Prefix(f)| > 0 && NoDigits(Prefix(f))
  {
    match f
    case AdjointSolution => assert NoDigits("adjoint_solution");
    case SensitivitySolution => assert NoDigits("sensitivity_solution");
    case WeightedSensitivityAdjointSolution => assert NoDigits("weighted_sensitivity_adjoint_solution");
    case AdjointRhs => assert NoDigits("adjoint_rhs");
    case SensitivityRhs => assert NoDigits("sensitivity_rhs");
  }

  lemma ConcatAt(p: string, d: string, k: nat)
    requires k < |p| + |d|
    ensures (p + d)[k] == if k < |p| then p[k] else d[k - |p|]
  {
  }

  /** An indexed family name ends in a digit. */
  lemma IndexedNameEndsInDigit(f: Family, i: nat)
    ensures IsDigit(FamilyName(Indexed(f, i))[|FamilyName(Indexed(f, i))| - 1])
  {
    ConcatAt(Prefix(f), Decimal(i), |Prefix(f)| + |Decimal(i)| - 1);
  }

  /**
   * A name made of a digit-free prefix and a non-empty run of digits
   * determines both parts.
   */
  lemma SplitAtDigits(p1: string, d1: string, p2: string, d2: string)
    requires NoDigits(p1) && NoDigits(p2)
    requires |d1| > 0 && |d2| > 0
    requires forall k :: 0 <= k < |d1| ==> IsDigit(d1[k])
    requires forall k :: 0 <= k < |d2| ==> IsDigit(d2[k])
    requires p1 + d1 == p2 + d2
    ensures p1 == p2 && d1 == d2
  {
    if |p1| < |p2| {
      ConcatAt(p1, d1, |p1|);
      assert false;
    } else if |p2| < |p1| {
      ConcatAt(p2, d2, |p2|);
      assert false;
    } else {
      assert p1 == (p1 + d1)[..|p1|] && p2 == (p2 + d2)[..|p2|];
      assert d1 == (p1 + d1)[|p1|..] && d2 == (p2 + d2)[|p2|..];
    }
  }

  /** Different family vectors never share a name. */
  lemma FamilyNameInjective(a: FamilyKey, b: FamilyKey)
    requires FamilyName(a) == FamilyName(b)
    ensures a == b
  {
    if a.Indexed? && b.Indexed? {
      PrefixesHaveNoDigits(a.family);
      PrefixesHaveNoDigits(b.family);
      SplitAtDigits(Prefix(a.family), Decimal(a.index), Prefix(b.family), Decimal(b.index));
      DecimalInjective(a.index, b.index);
    } else if a.Indexed? {
      IndexedNameEndsInDigit(a.family, a.index);
      assert false;
    } else if b.Indexed? {
      IndexedNameEndsInDigit(b.family, b.index);
      assert false;
    }
  }
}
