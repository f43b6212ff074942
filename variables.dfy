/**
 * System::Variable: one unknown of a System, with its name, its rank in
 * the System, its finite element type and the set of subdomains it is
 * restricted to (empty meaning every subdomain).
 */
module Variables {

  type SubdomainId = nat

  /** An approximation order (FIRST is 1) and a family code (LAGRANGE is 0). */
  datatype FEType = FEType(order: nat, family: nat)

  const FIRST: nat := 1
  const LAGRANGE: nat := 0

  datatype Variable = Variable(
    name: string,
    number: nat,
    feType: FEType,
    activeSubdomains: set<SubdomainId>)
  {
    /** An empty restriction set means active on every subdomain. */
    predicate ActiveOnSubdomain(sid: SubdomainId)
    {
      |activeSubdomains| == 0 || sid in activeSubdomains
    }

    predicate ImplicitlyActive()
    {
      |activeSubdomains| == 0
    }
  }

  /** The first constructor: no restriction set, so active on all subdomains. */
  function MakeVariable(name: string, number: nat, feType: FEType): (v: Variable)
    ensures v.name == name && v.number == number && v.feType == feType
    ensures v.ImplicitlyActive()
    ensures forall sid :: v.ActiveOnSubdomain(sid)
  {
    Variable(name, number, feType, {})
  }

  /** An implicitly active variable is active on every subdomain. */
  lemma ImplicitlyActiveEverywhere(v: Variable, sid: SubdomainId)
    requires v.ImplicitlyActive()
    ensures v.ActiveOnSubdomain(sid)
  {
  }

  /** A variable with a restriction set is active exactly on the subdomains in it. */
  lemma RestrictedActiveExactly(v: Variable, sid: SubdomainId)
    requires !v.ImplicitlyActive()
    ensures v.ActiveOnSubdomain(sid) <==> sid in v.activeSubdomains
  {
  }

  /** The empty set never means "active nowhere": every variable is active on some subdomain. */
  lemma ActiveSomewhere(v: Variable)
    ensures exists sid :: v.ActiveOnSubdomain(sid)
  {
    if v.ImplicitlyActive() {
      assert v.ActiveOnSubdomain(0);
    } else {
      var sid :| sid in v.activeSubdomains;
      assert v.ActiveOnSubdomain(sid);
    }
  }
}
