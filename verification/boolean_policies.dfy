/** The two mock policies and the PolicyManager's pre-validation as their unit
    test pins them down. A policy answers `rule(sig, addresses, values,
    identifier)` with a boolean; the manager keeps, per function signature, the
    policies registered for it and refuses a call when one of them answers
    false. */
module BooleanPolicies {
  import opened Wrappers
  import opened Ethereum

  /** The arguments of a rule check: the function signature being called, the
      addresses and values of the order, and an identifier. */
  datatype RuleArgs = RuleArgs(sig: string, addresses: seq<Address>, values: seq<int>, identifier: string)

  /** The two mock policy contracts. */
  datatype Policy = TruePolicy | FalsePolicy

  /** `rule(...)`: each mock answers with its constant. */
  function Rule(p: Policy, args: RuleArgs): (ok: bool)
    ensures ok <==> p == TruePolicy
  {
    match p
    case TruePolicy => true
    case FalsePolicy => false
  }

  /** The manager of a hub: the policies registered per signature, in the order
      they were registered. */
  datatype Manager = Manager(hub: Address, policies: map<string, seq<Policy>>)

  const RuleFalseMessage: string := "Rule evaluated to false"

  function Deploy(hub: Address): (m: Manager)
    ensures m.hub == hub && m.policies == map[]
  {
    Manager(hub, map[])
  }

  function PoliciesFor(m: Manager, sig: string): seq<Policy> {
    if sig in m.policies then m.policies[sig] else []
  }

  /** `register(sig, policy)` adds the policy after those already registered. */
  function Register(m: Manager, sig: string, p: Policy): (m': Manager)
    ensures PoliciesFor(m', sig) == PoliciesFor(m, sig) + [p]
    ensures forall other :: other != sig ==> PoliciesFor(m', other) == PoliciesFor(m, other)
    ensures m'.hub == m.hub
  {
    m.(policies := m.policies[sig := PoliciesFor(m, sig) + [p]])
  }

  /** Runs the policies in order and stops at the first that answers false. */
  function CheckAll(ps: seq<Policy>, args: RuleArgs): (r: Result<(), string>)
    ensures r.Success? <==> forall i :: 0 <= i < |ps| ==> Rule(ps[i], args)
    ensures r.Failure? ==> r.error == RuleFalseMessage
  {
    if |ps| == 0 then Success(())
    else if !Rule(ps[0], args) then Failure(RuleFalseMessage)
    else CheckAll(ps[1..], args)
  }

  /** `preValidate(sig, addresses, values, identifier)`. */
  function PreValidate(m: Manager, args: RuleArgs): (r: Result<(), string>)
    ensures r.Success? <==> forall i :: 0 <= i < |PoliciesFor(m, args.sig)| ==> Rule(PoliciesFor(m, args.sig)[i], args)
    ensures r.Failure? ==> r.error == RuleFalseMessage
  {
    CheckAll(PoliciesFor(m, args.sig), args)
  }

  /** A call passes exactly when no FalsePolicy is registered for its signature. */
  lemma {:induction false} PassesIffNoFalsePolicy(m: Manager, args: RuleArgs)
    ensures PreValidate(m, args).Success? <==> FalsePolicy !in PoliciesFor(m, args.sig)
  {
    var ps := PoliciesFor(m, args.sig);
    if FalsePolicy in ps {
      var i :| 0 <= i < |ps| && ps[i] == FalsePolicy;
      assert !Rule(ps[i], args);
    } else {
      forall i | 0 <= i < |ps| ensures Rule(ps[i], args) {
        assert ps[i] != FalsePolicy;
      }
    }
  }

  /** Registering a FalsePolicy under a signature refuses every later call with
      that signature, whatever was registered before. */
  lemma FalsePolicyRejects(m: Manager, args: RuleArgs)
    ensures PreValidate(Register(m, args.sig, FalsePolicy), args) == Failure(RuleFalseMessage)
  {
    var ps := PoliciesFor(Register(m, args.sig, FalsePolicy), args.sig);
    assert !Rule(ps[|ps| - 1], args);
  }

  /** Registering a TruePolicy changes no verdict. */
  lemma TruePolicyChangesNothing(m: Manager, sig: string, args: RuleArgs)
    ensures PreValidate(Register(m, sig, TruePolicy), args) == PreValidate(m, args)
  {
    var ps := PoliciesFor(m, args.sig);
    if sig == args.sig {
      var ps' := ps + [TruePolicy];
      assert PoliciesFor(Register(m, sig, TruePolicy), args.sig) == ps';
      if PreValidate(m, args).Success? {
        forall i | 0 <= i < |ps'| ensures Rule(ps'[i], args) {
          if i < |ps| { assert ps'[i] == ps[i] && Rule(ps[i], args); }
        }
        assert PreValidate(Register(m, sig, TruePolicy), args).Success?;
        assert PreValidate(Register(m, sig, TruePolicy), args).value == PreValidate(m, args).value;
      } else {
        var i :| 0 <= i < |ps| && !Rule(ps[i], args);
        assert ps'[i] == ps[i];
      }
    }
  }

  /** Policies registered under other signatures do not take part. */
  lemma OtherSignatureIgnored(m: Manager, sig: string, p: Policy, args: RuleArgs)
    requires sig != args.sig
    ensures PreValidate(Register(m, sig, p), args) == PreValidate(m, args)
  {
  }

  /** The mocks answer the same for any arguments. */
  lemma RuleIgnoresArguments(p: Policy, a: RuleArgs, b: RuleArgs)
    ensures Rule(p, a) == Rule(p, b)
    ensures Rule(TruePolicy, a) && !Rule(FalsePolicy, a)
  {
  }

  /** The test: a fresh manager with the FalsePolicy registered refuses the dummy
      call with "Rule evaluated to false"; one with the TruePolicy accepts it. */
  lemma MockScenario(hub1: Address, hub2: Address, testPolicy: string)
    ensures var dummy := RuleArgs(testPolicy, [AddressZero, AddressZero, AddressZero, AddressZero, AddressZero], [0, 0, 0], "0x0");
      && PreValidate(Register(Deploy(hub1), testPolicy, FalsePolicy), dummy) == Failure("Rule evaluated to false")
      && PreValidate(Register(Deploy(hub2), testPolicy, TruePolicy), dummy).Success?
  {
    var dummy := RuleArgs(testPolicy, [AddressZero, AddressZero, AddressZero, AddressZero, AddressZero], [0, 0, 0], "0x0");
    FalsePolicyRejects(Deploy(hub1), dummy);
    TruePolicyChangesNothing(Deploy(hub2), testPolicy, dummy);
  }
}
