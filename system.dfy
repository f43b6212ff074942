/**
 * The state a System keeps between solves: its variable registry, its
 * named additional vectors with their projection flags, the solution, and
 * the flags that say whether it is active, whether the solution is
 * projected on reinit and whether vectors may still be added.
 */
module Systems {
  import opened Wrappers
  import opened SortedStore
  import opened VectorNames
  import opened Variables

  /** A vector entry; the values themselves matter here only as zeros. */
  type Vector = seq<Number>

  /** 2^32: unsigned int, the width of the DOF counts. */
  const UINT_LIMIT: nat := 0x1_0000_0000

  datatype SystemError =
    | VariableAlreadyAdded
    | VariableNotFound
    | VectorNotFound
    | TooLateToAddVectors

  function Zeros(n: nat): (v: Vector)
    ensures |v| == n
    ensures forall k :: 0 <= k < n ==> v[k] == 0.0
  {
    seq(n, _ => 0.0)
  }

  /** Unsigned int subtraction: wraps modulo 2^32 when b > a. */
  function UnsignedSub(a: nat, b: nat): (r: nat)
    requires a < UINT_LIMIT && b < UINT_LIMIT
    ensures r < UINT_LIMIT
    ensures b <= a ==> r == a - b
    ensures a < b ==> r == UINT_LIMIT - (b - a)
  {
    (a - b) % UINT_LIMIT
  }

  class System {
    const name: string
    const number: nat

    /** _variables, in the order they were added. */
    var variables: seq<Variable>
    /** _variable_numbers: variable name to its rank. */
    var variableNumbers: map<string, nat>
    var active: bool
    /** _vectors: the additional vectors, in the map's (name) order. */
    var vectors: seq<Entry<Vector>>
    /** _vector_projections: true if the named vector is projected on a changed grid, false if zeroed. */
    var vectorProjections: map<string, bool>
    var solutionProjection: bool
    var canAddVectors: bool
    var solution: Vector
    /** The DOF map's total and constrained DOF counts. */
    var nDofs: nat
    var nConstrainedDofs: nat

    ghost predicate Valid()
      reads this
    {
      && Registry(variables, variableNumbers)
      && VectorStore(vectors, vectorProjections, nDofs)
      && |solution| == nDofs
      && nDofs < UINT_LIMIT && nConstrainedDofs < UINT_LIMIT
    }

    /** A new System: no variables, no additional vectors, active, projecting its solution, open for vectors. */
    constructor (name: string, number: nat, nDofs: nat, nConstrainedDofs: nat)
      requires nDofs < UINT_LIMIT && nConstrainedDofs < UINT_LIMIT
      ensures Valid()
      ensures this.name == name && this.number == number
      ensures variables == [] && vectors == [] && vectorProjections == map[]
      ensures active && solutionProjection && canAddVectors
      ensures this.nDofs == nDofs && this.nConstrainedDofs == nConstrainedDofs
      ensures solution == Zeros(nDofs)
    {
      this.name := name;
      this.number := number;
      variables := [];
      variableNumbers := map[];
      active := true;
      vectors := [];
      vectorProjections := map[];
      solutionProjection := true;
      canAddVectors := true;
      solution := Zeros(nDofs);
      this.nDofs := nDofs;
      this.nConstrainedDofs := nConstrainedDofs;
    }

    /** init(): after it no further vectors may be added. */
    method Init()
      requires Valid()
      modifies this`canAddVectors
      ensures Valid() && !canAddVectors
    {
      canAddVectors := false;
    }

    method Activate()
      modifies this`active
      ensures active
    {
      active := true;
    }

    method Deactivate()
      modifies this`active
      ensures !active
    {
      active := false;
    }

    /** project_solution_on_reinit() = b, through the returned reference. */
    method SetProjectSolutionOnReinit(b: bool)
      modifies this`solutionProjection
      ensures solutionProjection == b
    {
      solutionProjection := b;
    }

    /** n_active_dofs(): n_dofs() - n_constrained_dofs() in unsigned arithmetic. */
    function NActiveDofs(): (r: nat)
      reads this
      requires Valid()
      ensures r < UINT_LIMIT
      ensures nConstrainedDofs <= nDofs ==> r == nDofs - nConstrainedDofs && r <= nDofs
    {
      UnsignedSub(nDofs, nConstrainedDofs)
    }

    // ------------------------------------------------------------
    // Variable registry

    /** n_vars(): the number of variables, which is also the number of names in _variable_numbers. */
    function NVars(): (r: nat)
      reads this
      ensures Valid() ==> r == |variableNumbers|
    {
      assert Valid() ==> |variableNumbers| == |variables| by {
        if Valid() {
          RegistryCard(variables, variableNumbers);
        }
      }
      |variables|
    }

    /** variable(i): the i-th variable added, whose rank is i. */
    function GetVariable(i: nat): (v: Variable)
      reads this
      requires Valid() && i < NVars()
      ensures v == variables[i] && v.number == i
    {
      variables[i]
    }

    /** variable_name(i): the name under which the i-th variable is looked up. */
    function VariableName(i: nat): (r: string)
      reads this
      requires Valid() && i < NVars()
      ensures r == variables[i].name
      ensures VariableNumber(r) == Ok(i)
    {
      variables[i].name
    }

    /** variable_type(i). */
    function VariableType(i: nat): (r: FEType)
      reads this
      requires Valid() && i < NVars()
      ensures VariableTypeByName(VariableName(i)) == Ok(r)
    {
      variables[i].feType
    }

    /** has_variable(var): a lookup in _variable_numbers. */
    predicate HasVariable(var_name: string)
      reads this
      requires Valid()
      ensures HasVariable(var_name) <==> exists i :: 0 <= i < |variables| && variables[i].name == var_name
    {
      var_name in variableNumbers
    }

    /** variable_number(var): the rank of the variable of that name, or not found. */
    function VariableNumber(var_name: string): (r: Result<nat, SystemError>)
      reads this
      requires Valid()
      ensures r.Ok? <==> HasVariable(var_name)
      ensures r.Ok? ==> r.value < |variables| && variables[r.value].name == var_name
      ensures r.Err? ==> r.error == VariableNotFound
    {
      if var_name in variableNumbers then
        var i :| 0 <= i < |variables| && variables[i].name == var_name;
        Ok(variableNumbers[var_name])
      else Err(VariableNotFound)
    }

    /** variable_type(var): the type of the variable of that name. */
    function VariableTypeByName(var_name: string): (r: Result<FEType, SystemError>)
      reads this
      requires Valid()
      ensures r.Ok? <==> HasVariable(var_name)
      ensures r.Ok? ==> exists i :: 0 <= i < |variables| && variables[i].name == var_name && variables[i].feType == r.value
    {
      match VariableNumber(var_name)
      case Ok(i) => Ok(variables[i].feType)
      case Err(e) => Err(e)
    }

    /**
     * add_variable(var, type, active_subdomains): appends a variable whose
     * rank is the old number of variables and returns that rank. Without a
     * subdomain set the variable is active everywhere.
     */
    method AddVariable(var_name: string, feType: FEType, activeSubdomains: Option<set<SubdomainId>>)
      returns (r: Result<nat, SystemError>)
      requires Valid()
      modifies this`variables, this`variableNumbers
      ensures Valid()
      ensures old(HasVariable(var_name)) ==>
        r == Err(VariableAlreadyAdded) && variables == old(variables) && variableNumbers == old(variableNumbers)
      ensures !old(HasVariable(var_name)) ==>
        && r == Ok(old(|variables|))
        && NVars() == old(NVars()) + 1
        && variables == old(variables) + [Variable(var_name, r.value, feType,
             if activeSubdomains.Some? then activeSubdomains.value else {})]
        && VariableName(r.value) == var_name
        && VariableNumber(var_name) == r
        && VariableTypeByName(var_name) == Ok(feType)
    {
      if var_name in variableNumbers {
        return Err(VariableAlreadyAdded);
      }
      var n := |variables|;
      var v := if activeSubdomains.Some? then Variable(var_name, n, feType, activeSubdomains.value)
               else MakeVariable(var_name, n, feType);
      RegistryAppend(variables, variableNumbers, v);
      variables := variables + [v];
      variableNumbers := variableNumbers[var_name := n];
      r := Ok(n);
    }

    /** add_variable(var, order, family, active_subdomains), with FIRST and LAGRANGE as defaults. */
    method AddVariableByOrder(var_name: string, order: nat := FIRST, family: nat := LAGRANGE,
                              activeSubdomains: Option<set<SubdomainId>> := None)
      returns (r: Result<nat, SystemError>)
      requires Valid()
      modifies this`variables, this`variableNumbers
      ensures Valid()
      ensures old(HasVariable(var_name)) ==>
        r == Err(VariableAlreadyAdded) && variables == old(variables) && variableNumbers == old(variableNumbers)
      ensures !old(HasVariable(var_name)) ==>
        && r == Ok(old(|variables|))
        && NVars() == old(NVars()) + 1
        && variables == old(variables) + [Variable(var_name, r.value, FEType(order, family),
             if activeSubdomains.Some? then activeSubdomains.value else {})]
        && VariableNumber(var_name) == r
        && VariableTypeByName(var_name) == Ok(FEType(order, family))
    {
      r := AddVariable(var_name, FEType(order, family), activeSubdomains);
    }

    // ------------------------------------------------------------
    // Additional vectors

    /** have_vector(name): the name is a key of _vectors. */
    predicate HaveVector(vec_name: string)
      reads this
      ensures HaveVector(vec_name) <==> vec_name in Keys(vectors)
    {
      HasKeyIsKeys(vectors, vec_name);
      HasKey(vectors, vec_name)
    }

    /** n_vectors(): the size of _vectors, which is its number of distinct names. */
    function NVectors(): (r: nat)
      reads this
      requires Valid()
      ensures r == |Keys(vectors)|
    {
      SortedKeysCard(vectors);
      |vectors|
    }

    /** request_vector(name): the vector, or nothing when there is none of that name. */
    function RequestVector(vec_name: string): (r: Option<Vector>)
      reads this
      requires Valid()
      ensures r.None? <==> !HaveVector(vec_name)
      ensures r.Some? ==> |r.value| == nDofs
    {
      Lookup(vectors, vec_name)
    }

    /** get_vector(name): the vector; asking for a missing one is an error. */
    function GetVector(vec_name: string): (r: Result<Vector, SystemError>)
      reads this
      requires Valid()
      ensures r.Ok? <==> HaveVector(vec_name)
      ensures r.Ok? ==> RequestVector(vec_name) == Some(r.value)
      ensures r.Err? ==> r.error == VectorNotFound
    {
      match RequestVector(vec_name)
      case Some(v) => Ok(v)
      case None => Err(VectorNotFound)
    }

    /**
     * The walk request_vector(vec_num), get_vector(vec_num) and
     * vector_name(vec_num) make: advance an iterator from vectors_begin()
     * at most vec_num times, stopping at vectors_end().
     */
    method AdvanceIterator(vecNum: nat) returns (pos: nat)
      ensures pos <= |vectors|
      ensures pos == if vecNum < |vectors| then vecNum else |vectors|
    {
      var num := 0;
      pos := 0;
      while num < vecNum && pos < |vectors|
        invariant num == pos <= |vectors|
        invariant num <= vecNum
      {
        num := num + 1;
        pos := pos + 1;
      }
    }

    /** request_vector(vec_num): the vec_num-th vector in name order, or nothing past the end. */
    method RequestVectorAt(vecNum: nat) returns (r: Option<Vector>)
      requires Valid()
      ensures r.None? <==> vecNum >= NVectors()
      ensures r.Some? ==> r == RequestVector(vectors[vecNum].key)
    {
      var pos := AdvanceIterator(vecNum);
      if pos == |vectors| {
        return None;
      }
      r := Some(vectors[pos].value);
      forall k | 0 <= k < |vectors| && vectors[k].key == vectors[pos].key ensures k == pos {
        SortedKeyPositionUnique(vectors, k, pos);
      }
      LookupAt(vectors, pos);
    }

    /** get_vector(vec_num): the vec_num-th vector; past the end is an error. */
    method GetVectorAt(vecNum: nat) returns (r: Result<Vector, SystemError>)
      requires Valid()
      ensures r.Ok? <==> vecNum < NVectors()
      ensures r.Ok? ==> Some(r.value) == RequestVector(vectors[vecNum].key)
    {
      var v := RequestVectorAt(vecNum);
      if v.None? {
        return Err(VectorNotFound);
      }
      r := Ok(v.value);
    }

    /** vector_name(vec_num): the name at that position; names come in increasing order. */
    method VectorName(vecNum: nat) returns (r: Result<string, SystemError>)
      requires Valid()
      ensures r.Ok? <==> vecNum < NVectors()
      ensures r.Ok? ==> HaveVector(r.value) && r.value == vectors[vecNum].key
      ensures r.Ok? ==> forall k :: 0 <= k < vecNum ==> StringOrder.Less(vectors[k].key, r.value)
    {
      var pos := AdvanceIterator(vecNum);
      if pos == |vectors| {
        return Err(VectorNotFound);
      }
      r := Ok(vectors[pos].key);
    }

    /**
     * add_vector(name, projections): a new name gets a zero vector of the
     * solution's length and its projection flag, which is only allowed
     * before init(); a name already present returns its vector unchanged.
     */
    method AddVector(vec_name: string, projections: bool := true) returns (r: Result<Vector, SystemError>)
      requires Valid()
      modifies this`vectors, this`vectorProjections
      ensures Valid()
      ensures old(HaveVector(vec_name)) ==>
        && r.Ok? && old(RequestVector(vec_name)) == Some(r.value)
        && vectors == old(vectors) && vectorProjections == old(vectorProjections)
      ensures !old(HaveVector(vec_name)) && !canAddVectors ==>
        && r == Err(TooLateToAddVectors)
        && vectors == old(vectors) && vectorProjections == old(vectorProjections)
      ensures !old(HaveVector(vec_name)) && canAddVectors ==>
        && r == Ok(Zeros(nDofs))
        && RequestVector(vec_name) == Some(Zeros(nDofs))
        && vectorProjections == old(vectorProjections)[vec_name := projections]
        && NVectors() == old(NVectors()) + 1
      ensures r.Ok? ==> HaveVector(vec_name) && |r.value| == |solution|
      ensures forall other :: other != vec_name ==> Lookup(vectors, other) == old(Lookup(vectors, other))
    {
      if HaveVector(vec_name) {
        r := Ok(Lookup(vectors, vec_name).value);
        return;
      }
      if !canAddVectors {
        return Err(TooLateToAddVectors);
      }
      var zeros := Zeros(nDofs);
      var after := Insert(vectors, vec_name, zeros);
      InsertIntoStore(vectors, after, vectorProjections, vec_name, zeros, nDofs, projections);
      vectors := after;
      vectorProjections := vectorProjections[vec_name := projections];
      r := Ok(zeros);
    }

    // ------------------------------------------------------------
    // Indexed vector families

    /** Whether the family vector has been created: its name is a key of _vectors. */
    predicate HaveFamilyVector(key: FamilyKey)
      reads this
      ensures HaveFamilyVector(key) <==> FamilyName(key) in Keys(vectors)
    {
      HaveVector(FamilyName(key))
    }

    /**
     * add_adjoint_solution(i), add_sensitivity_solution(i),
     * add_weighted_sensitivity_adjoint_solution(i), add_adjoint_rhs(i),
     * add_sensitivity_rhs(i) and add_weighted_sensitivity_solution():
     * create the family vector if it is absent; no other family vector
     * appears or disappears.
     */
    method AddFamilyVector(key: FamilyKey) returns (r: Result<Vector, SystemError>)
      requires Valid()
      modifies this`vectors, this`vectorProjections
      ensures Valid()
      ensures old(HaveFamilyVector(key)) ==>
        && r.Ok? && old(RequestVector(FamilyName(key))) == Some(r.value)
        && vectors == old(vectors) && vectorProjections == old(vectorProjections)
      ensures !old(HaveFamilyVector(key)) && canAddVectors ==>
        && r == Ok(Zeros(nDofs)) && GetFamilyVector(key) == Ok(Zeros(nDofs))
        && vectorProjections == old(vectorProjections)[FamilyName(key) := true]
        && NVectors() == old(NVectors()) + 1
      ensures !old(HaveFamilyVector(key)) && !canAddVectors ==>
        && r == Err(TooLateToAddVectors)
        && vectors == old(vectors) && vectorProjections == old(vectorProjections)
      ensures forall n :: n != FamilyName(key) ==> Lookup(vectors, n) == old(Lookup(vectors, n))
      ensures forall other: FamilyKey :: other != key ==>
        Lookup(vectors, FamilyName(other)) == old(Lookup(vectors, FamilyName(other)))
    {
      r := AddVector(FamilyName(key));
      forall other: FamilyKey | other != key
        ensures Lookup(vectors, FamilyName(other)) == old(Lookup(vectors, FamilyName(other)))
      {
        if FamilyName(other) == FamilyName(key) {
          FamilyNameInjective(other, key);
        }
      }
    }

    /** get_adjoint_solution(i) and the other get_* accessors: the vector must have been created. */
    function GetFamilyVector(key: FamilyKey): (r: Result<Vector, SystemError>)
      reads this
      requires Valid()
      ensures r.Ok? <==> HaveFamilyVector(key)
      ensures r.Ok? ==> |r.value| == nDofs
    {
      GetVector(FamilyName(key))
    }
  }

  /**
   * _variables and _variable_numbers agree: each variable's number is its
   * rank, names are distinct, and the name map sends each name to its rank.
   */
  ghost predicate Registry(vars: seq<Variable>, numbers: map<string, nat>)
  {
    && (forall i :: 0 <= i < |vars| ==> vars[i].number == i)
    && (forall i, j :: 0 <= i < j < |vars| ==> vars[i].name != vars[j].name)
    && numbers.Keys == (set i | 0 <= i < |vars| :: vars[i].name)
    && (forall i :: 0 <= i < |vars| ==> numbers[vars[i].name] == i)
  }

  /** Distinct names: the name map has one entry per variable. */
  lemma {:induction false} RegistryCard(vars: seq<Variable>, numbers: map<string, nat>)
    requires Registry(vars, numbers)
    ensures |numbers| == |vars|
  {
    DistinctNamesCard(vars);
    assert numbers.Keys == (set i | 0 <= i < |vars| :: vars[i].name);
  }

  lemma {:induction false} DistinctNamesCard(vars: seq<Variable>)
    requires forall i, j :: 0 <= i < j < |vars| ==> vars[i].name != vars[j].name
    ensures |set i | 0 <= i < |vars| :: vars[i].name| == |vars|
  {
    if |vars| > 0 {
      var n := |vars| - 1;
      var init := vars[..n];
      DistinctNamesCard(init);
      var s0 := set i | 0 <= i < |init| :: init[i].name;
      var s := set i | 0 <= i < |vars| :: vars[i].name;
      forall x | x in s ensures x in s0 || x == vars[n].name {
        var i :| 0 <= i < |vars| && vars[i].name == x;
        if i < n {
          assert init[i].name == x;
        }
      }
      forall x | x in s0 ensures x in s {
        var i :| 0 <= i < |init| && init[i].name == x;
        assert vars[i].name == x;
      }
      assert vars[n].name in s;
      assert s == s0 + {vars[n].name};
      forall x | x in s0 ensures x != vars[n].name {
        var i :| 0 <= i < |init| && init[i].name == x;
        assert vars[i].name == x;
      }
    }
  }

  /** Appending a variable with a fresh name and the next rank keeps the registry consistent. */
  lemma RegistryAppend(vars: seq<Variable>, numbers: map<string, nat>, v: Variable)
    requires Registry(vars, numbers)
    requires v.name !in numbers && v.number == |vars|
    ensures Registry(vars + [v], numbers[v.name := |vars|])
  {
    var vs := vars + [v];
    assert forall i :: 0 <= i < |vars| ==> vs[i] == vars[i];
    var olds := set i | 0 <= i < |vars| :: vars[i].name;
    var news := set i | 0 <= i < |vs| :: vs[i].name;
    forall x | x in news ensures x in olds + {v.name} {
      var i :| 0 <= i < |vs| && vs[i].name == x;
      if i < |vars| {
        assert vars[i].name == x;
      }
    }
    forall x | x in olds + {v.name} ensures x in news {
      if x == v.name {
        assert vs[|vars|].name == x;
      } else {
        var i :| 0 <= i < |vars| && vars[i].name == x;
        assert vs[i].name == x;
      }
    }
  }

  /** Every vector has length n before and after a new name is added with a vector of length n. */
  /** _vectors is a sorted store of vectors of length n whose names are exactly the keys of _vector_projections. */
  ghost predicate VectorStore(vectors: seq<Entry<Vector>>, projections: map<string, bool>, n: nat)
  {
    && StrictlySorted(vectors)
    && Keys(vectors) == projections.Keys
    && (forall k :: 0 <= k < |vectors| ==> |vectors[k].value| == n)
  }

  /** Inserting a fresh name with a vector of length n keeps the store well formed and adds one name. */
  lemma InsertIntoStore(before: seq<Entry<Vector>>, after: seq<Entry<Vector>>, projections: map<string, bool>,
                        vec_name: string, v: Vector, n: nat, flag: bool)
    requires VectorStore(before, projections, n) && vec_name !in Keys(before)
    requires |v| == n && after == Insert(before, vec_name, v)
    ensures VectorStore(after, projections[vec_name := flag], n)
    ensures |Keys(after)| == |Keys(before)| + 1
    ensures forall other :: Lookup(after, other) == if other == vec_name then Some(v) else Lookup(before, other)
  {
    InsertSorted(before, vec_name, v);
    assert Keys(after) == Keys(before) + {vec_name} by { InsertKeys(before, vec_name, v); }
    assert |Keys(after)| == |Keys(before)| + 1 by {
      SortedKeysCard(before);
      SortedKeysCard(after);
    }
    assert forall k :: 0 <= k < |after| ==> |after[k].value| == n by {
      InsertEntries(before, vec_name, v);
      forall k | 0 <= k < |after| ensures |after[k].value| == n {
        assert after[k] in after;
      }
    }
    forall other ensures Lookup(after, other) == if other == vec_name then Some(v) else Lookup(before, other) {
      InsertLookup(before, vec_name, v, other);
    }
  }

  /** The entry at a position of a sorted store is what a lookup of its key finds. */
  lemma LookupAt<V>(s: seq<Entry<V>>, pos: nat)
    requires StrictlySorted(s) && pos < |s|
    ensures Lookup(s, s[pos].key) == Some(s[pos].value)
  {
    var r := Lookup(s, s[pos].key);
    assert s[pos].key in Keys(s);
    var j :| 0 <= j < |s| && s[j] == Entry(s[pos].key, r.value);
    SortedKeyPositionUnique(s, j, pos);
  }
}
