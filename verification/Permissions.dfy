/**
  Compiling a permissions file into rule maps, and answering from the maps
  (packages/private-rpc/src/permissions/yaml-parser.ts, authorizer.ts, access-rules.ts).
*/
module Permissions {
  import opened Basics

  type Address = string
  type Selector = string
  type Calldata = string

  /** A rule as the file states it. */
  datatype RawRule =
    | Public
    | Closed
    | Group(groups: seq<string>)
    | CheckArgument(argIndex: int)
    | OneOf(rules: seq<RawRule>)

  datatype RawGroup = RawGroup(name: string, members: seq<Address>)
  datatype RawMethod = RawMethod(signature: string, read: RawRule, write: RawRule, postRead: Option<int>)
  datatype RawContract = RawContract(address: Address, methods: seq<RawMethod>)
  datatype File = File(groups: seq<RawGroup>, contracts: seq<RawContract>)

  /** A rule as the authorizer keeps it. */
  datatype AccessRule =
    | PublicRule
    | AccessDeniedRule
    | GroupRule(members: set<Address>)
    | OneOfRule(rules: seq<AccessRule>)
    | ArgumentIsCaller(argIndex: int, functionDef: string)

  /** A decision, or an exception. */
  datatype Decision = Granted | Refused | Threw

  /** viem: the selector of a signature, whether a signature parses, and decoding an address argument. */
  datatype Abi = Abi(
    selectorOf: string -> Option<Selector>,
    parses: string -> bool,
    decodeAddress: (string, Calldata, int) -> Option<Address>)

  function ExtractSelector(calldata: Calldata): Selector {
    if |calldata| > 10 then calldata[..10] else calldata
  }

  // ---------------------------------------------------------------- canDo

  function Compare(found: Option<Address>, user: Address): Decision {
    match found
    case None => Threw
    case Some(a) => if a == user then Granted else Refused
  }

  function CanDo(abi: Abi, rule: AccessRule, user: Address, calldata: Calldata): Decision {
    match rule
    case PublicRule => Granted
    case AccessDeniedRule => Refused
    case GroupRule(members) => if user in members then Granted else Refused
    case OneOfRule(rules) => Some_(abi, rules, user, calldata)
    case ArgumentIsCaller(i, def) => Compare(abi.decodeAddress(def, calldata, i), user)
  }

  /** `rules.some(...)`: from the front, stopping at the first that grants or throws. */
  function Some_(abi: Abi, rules: seq<AccessRule>, user: Address, calldata: Calldata): Decision {
    if |rules| == 0 then Refused
    else
      var first := CanDo(abi, rules[0], user, calldata);
      if first == Refused then Some_(abi, rules[1..], user, calldata) else first
  }

  // ---------------------------------------------------------------- hidrateRule

  function MembersForGroup(groups: seq<RawGroup>, name: string): set<Address> {
    set g, m | g in groups && g.name == name && m in g.members :: m
  }

  function HidrateRule(groups: seq<RawGroup>, rule: RawRule, signature: string): AccessRule {
    match rule
    case Public => PublicRule
    case Closed => AccessDeniedRule
    case Group(names) => GroupRule(set name, m | name in names && m in MembersForGroup(groups, name) :: m)
    case CheckArgument(i) => ArgumentIsCaller(i, signature)
    case OneOf(rules) => OneOfRule(HidrateAll(groups, rules, signature))
  }

  function HidrateAll(groups: seq<RawGroup>, rules: seq<RawRule>, signature: string): (r: seq<AccessRule>)
    ensures |r| == |rules|
  {
    if |rules| == 0 then [] else [HidrateRule(groups, rules[0], signature)] + HidrateAll(groups, rules[1..], signature)
  }

  /** hidrateRule throws where it parses a signature that does not parse. */
  predicate Hidrates(abi: Abi, rule: RawRule, signature: string) {
    match rule
    case CheckArgument(_) => abi.parses(signature)
    case OneOf(rules) => forall r :: r in rules ==> Hidrates(abi, r, signature)
    case _ => true
  }

  // ---------------------------------------------------------------- what the file says

  /**
    A rule read straight from the file. Membership is of any group of that name; oneOf grants when some
    alternative does and every earlier one plainly refuses, and throws when one throws before that.
  */
  ghost function Meaning(abi: Abi, groups: seq<RawGroup>, rule: RawRule, signature: string, user: Address,
      calldata: Calldata): Decision {
    match rule
    case Public => Granted
    case Closed => Refused
    case Group(names) => if exists g :: g in groups && g.name in names && user in g.members then Granted else Refused
    case CheckArgument(i) => Compare(abi.decodeAddress(signature, calldata, i), user)
    case OneOf(rules) =>
      if exists i :: DecidesFirst(abi, groups, rules, signature, user, calldata, i, Granted) then Granted
      else if exists i :: DecidesFirst(abi, groups, rules, signature, user, calldata, i, Threw) then Threw
      else Refused
  }

  ghost predicate DecidesFirst(abi: Abi, groups: seq<RawGroup>, rules: seq<RawRule>, signature: string, user: Address,
                               calldata: Calldata, i: int, d: Decision) {
    && 0 <= i < |rules|
    && Meaning(abi, groups, rules[i], signature, user, calldata) == d
    && forall j :: 0 <= j < i ==> Meaning(abi, groups, rules[j], signature, user, calldata) == Refused
  }

  /** One declaration: a method of a contract. */
  datatype Declaration = Declaration(address: Address, method_: RawMethod)

  function DeclarationsOf(contract: RawContract): seq<Declaration> {
    seq(|contract.methods|, i requires 0 <= i < |contract.methods| => Declaration(contract.address,
        contract.methods[i]))
  }

  function Declarations(contracts: seq<RawContract>): seq<Declaration> {
    if |contracts| == 0 then []
    else Declarations(contracts[..|contracts| - 1]) + DeclarationsOf(contracts[|contracts| - 1])
  }

  /** The last declaration of a pair in file order. */
  function LastDeclared(abi: Abi, declared: seq<Declaration>, address: Address, selector: Selector): Option<RawMethod> {
    if |declared| == 0 then None
    else
      var d := declared[|declared| - 1];
      if d.address == address && abi.selectorOf(d.method_.signature) == Some(selector) then Some(d.method_)
      else LastDeclared(abi, declared[..|declared| - 1], address, selector)
  }

  /** The post-read filter of a pair: of its last declaration that has one, not of its last declaration. */
  function LastFilter(abi: Abi, declared: seq<Declaration>, address: Address, selector: Selector)
    : Option<(string, int)>
  {
    if |declared| == 0 then None
    else
      var d := declared[|declared| - 1];
      if d.address == address && abi.selectorOf(d.method_.signature) == Some(selector) && d.method_.postRead.Some?
      then Some((d.method_.signature, d.method_.postRead.value))
      else LastFilter(abi, declared[..|declared| - 1], address, selector)
  }

  ghost function Interpret(abi: Abi, file: File, write: bool, address: Address, calldata: Calldata,
      user: Address): Decision {
    match LastDeclared(abi, Declarations(file.contracts), address, ExtractSelector(calldata))
    case None => Refused
    case Some(m) => Meaning(abi, file.groups, if write then m.write else m.read, m.signature, user, calldata)
  }

  // ---------------------------------------------------------------- rules keep their meaning

  /** A hydrated rule decides as the rule it was made from. */
  lemma {:induction false} HidrateKeepsMeaning(abi: Abi, groups: seq<RawGroup>, rule: RawRule, signature: string,
                                               user: Address, calldata: Calldata)
    ensures CanDo(abi, HidrateRule(groups, rule, signature), user, calldata)
         == Meaning(abi, groups, rule, signature, user, calldata)
    decreases rule, 1
  {
    match rule
    case OneOf(rules) =>
      HidrateAllKeepsMeaning(abi, groups, rule, rules, 0, signature, user, calldata);
      assert rules[0..] == rules;
    case Group(names) =>
      assert forall g :: g in groups && g.name in names && user in g.members ==>
          user in MembersForGroup(groups, g.name);
    case _ =>
  }

  /** Deciding the alternatives from k on, when the ones before were refused. */
  lemma {:induction false} HidrateAllKeepsMeaning(abi: Abi, groups: seq<RawGroup>, rule: RawRule, rules: seq<RawRule>,
      k: nat,
                                                  signature: string, user: Address, calldata: Calldata)
    requires rule == OneOf(rules) && k <= |rules|
    requires forall j :: 0 <= j < k ==> Meaning(abi, groups, rules[j], signature, user, calldata) == Refused
    ensures Some_(abi, HidrateAll(groups, rules[k..], signature), user, calldata)
         == Meaning(abi, groups, rule, signature, user, calldata)
    decreases rule, 0, |rules| - k
  {
    if k < |rules| {
      assert rules[k] in rules;
      assert rules[k..][0] == rules[k] && rules[k..][1..] == rules[k + 1..];
      HidrateKeepsMeaning(abi, groups, rules[k], signature, user, calldata);
      var d := Meaning(abi, groups, rules[k], signature, user, calldata);
      if d == Refused {
        HidrateAllKeepsMeaning(abi, groups, rule, rules, k + 1, signature, user, calldata);
      } else {
        assert DecidesFirst(abi, groups, rules, signature, user, calldata, k, d);
        forall i, e | DecidesFirst(abi, groups, rules, signature, user, calldata, i, e) && e != Refused
            ensures i == k && e == d {
        }
      }
    }
  }

  // ---------------------------------------------------------------- the authorizer

  class Authorizer {
    var permissions: map<(bool, Address, Selector), AccessRule>     // true for write
    var postReadFilters: map<(Address, Selector), (string, int)>

    constructor ()
      ensures permissions == map[] && postReadFilters == map[]
    {
      permissions, postReadFilters := map[], map[];
    }

    method AddReadRule(address: Address, selector: Selector, rule: AccessRule)
      modifies this`permissions
      ensures permissions == old(permissions)[(false, address, selector) := rule]
    {
      permissions := permissions[(false, address, selector) := rule];
    }

    method AddWriteRule(address: Address, selector: Selector, rule: AccessRule)
      modifies this`permissions
      ensures permissions == old(permissions)[(true, address, selector) := rule]
    {
      permissions := permissions[(true, address, selector) := rule];
    }

    method AddPostReadFilter(address: Address, selector: Selector, functionDef: string, index: int)
      modifies this`postReadFilters
      ensures postReadFilters == old(postReadFilters)[(address, selector) := (functionDef, index)]
    {
      postReadFilters := postReadFilters[(address, selector) := (functionDef, index)];
    }

    /** The maps are those of the declarations seen so far. */
    ghost predicate Holds(abi: Abi, groups: seq<RawGroup>, declared: seq<Declaration>)
      reads this
    {
      forall write, address, selector {:trigger (write, address, selector) in permissions} ::
        match LastDeclared(abi, declared, address, selector)
        case None => (write, address, selector) !in permissions
        case Some(m) =>
          (write, address, selector) in permissions
          && permissions[(write, address, selector)]
              == HidrateRule(groups, if write then m.write else m.read, m.signature)
    }

    ghost predicate Filters(abi: Abi, declared: seq<Declaration>)
      reads this
    {
      forall address, selector ::
        LastFilter(abi, declared, address, selector)
          == if (address, selector) in postReadFilters then Some(postReadFilters[(address, selector)]) else None
    }

    /** What parse does for one method of one contract. */
    method AddMethod(abi: Abi, groups: seq<RawGroup>, address: Address, m: RawMethod, ghost seen: seq<Declaration>)
      requires Parses(abi, m) && Holds(abi, groups, seen) && Filters(abi, seen)
      modifies this
      ensures Holds(abi, groups, seen + [Declaration(address, m)])
      ensures Filters(abi, seen + [Declaration(address, m)])
    {
      var selector := abi.selectorOf(m.signature).value;
      AddReadRule(address, selector, HidrateRule(groups, m.read, m.signature));
      AddWriteRule(address, selector, HidrateRule(groups, m.write, m.signature));
      if m.postRead.Some? {
        AddPostReadFilter(address, selector, m.signature, m.postRead.value);
      }
      LastOf(abi, seen, Declaration(address, m));
    }

    method CheckPostReadFilter(abi: Abi, address: Address, data: Calldata, ghost file: File)
        returns (filter: Option<(string, int)>)
      requires Filters(abi, Declarations(file.contracts))
      ensures filter == LastFilter(abi, Declarations(file.contracts), address, ExtractSelector(data))
    {
      var key := (address, ExtractSelector(data));
      filter := if key in postReadFilters then Some(postReadFilters[key]) else None;
    }

    /** checkContractRead and checkContractWrite: an undeclared pair is refused. */
    method CheckContract(abi: Abi, write: bool, address: Address, data: Calldata, user: Address, ghost file: File)
      returns (decision: Decision)
      requires Holds(abi, file.groups, Declarations(file.contracts))
      ensures decision == Interpret(abi, file, write, address, data, user)
    {
      var selector := ExtractSelector(data);
      var rule := if (write, address, selector) in permissions then permissions[(write, address, selector)]
          else AccessDeniedRule;
      decision := CanDo(abi, rule, user, data);
      var m := LastDeclared(abi, Declarations(file.contracts), address, selector);
      if m.Some? {
        HidrateKeepsMeaning(abi, file.groups, if write then m.value.write else m.value.read, m.value.signature, user,
            data);
      }
    }
  }

  /** Parsing a declaration does not throw. */
  predicate Parses(abi: Abi, m: RawMethod) {
    && abi.selectorOf(m.signature).Some?
    && Hidrates(abi, m.read, m.signature) && Hidrates(abi, m.write, m.signature)
    && (m.postRead.Some? ==> abi.parses(m.signature))
  }

  /**
    parse: throws exactly when some declaration does not parse; otherwise the maps hold the file, so that
    every later check decides as the file read directly.
  */
  method Parse(abi: Abi, file: File) returns (authorizer: Authorizer, ok: bool)
    ensures fresh(authorizer)
    ensures ok <==> forall d :: d in Declarations(file.contracts) ==> Parses(abi, d.method_)
    ensures ok ==> authorizer.Holds(abi, file.groups, Declarations(file.contracts))
    ensures ok ==> authorizer.Filters(abi, Declarations(file.contracts))
  {
    authorizer := new Authorizer();
    ok := true;
    for i := 0 to |file.contracts|
      invariant fresh(authorizer)
      invariant ok ==> authorizer.Holds(abi, file.groups, Declarations(file.contracts[..i]))
      invariant ok ==> authorizer.Filters(abi, Declarations(file.contracts[..i]))
      invariant ok <==> forall d :: d in Declarations(file.contracts[..i]) ==> Parses(abi, d.method_)
    {
      var contract := file.contracts[i];
      ghost var before := Declarations(file.contracts[..i]);
      assert before + DeclarationsOf(contract)[..0] == before;
      for j := 0 to |contract.methods|
        invariant fresh(authorizer)
        invariant ok ==> authorizer.Holds(abi, file.groups, before + DeclarationsOf(contract)[..j])
        invariant ok ==> authorizer.Filters(abi, before + DeclarationsOf(contract)[..j])
        invariant ok <==> forall d :: d in before + DeclarationsOf(contract)[..j] ==> Parses(abi, d.method_)
      {
        var m := contract.methods[j];
        ghost var seen := before + DeclarationsOf(contract)[..j];
        assert before + DeclarationsOf(contract)[..j + 1] == seen + [Declaration(contract.address, m)];
        if ok && Parses(abi, m) {
          authorizer.AddMethod(abi, file.groups, contract.address, m, seen);
        } else {
          ok := false;
        }
      }
      assert before + DeclarationsOf(contract)[..|contract.methods|] == before + DeclarationsOf(contract);
      assert file.contracts[..i + 1][..i] == file.contracts[..i];
    }
    assert file.contracts[..|file.contracts|] == file.contracts;
  }

  lemma LastOf(abi: Abi, declared: seq<Declaration>, d: Declaration)
    ensures forall address, selector :: LastDeclared(abi, declared + [d], address, selector) ==
              (if d.address == address && abi.selectorOf(d.method_.signature) == Some(selector) then Some(d.method_)
               else LastDeclared(abi, declared, address, selector))
    ensures forall address, selector :: LastFilter(abi, declared + [d], address, selector) ==
              (if d.address == address && abi.selectorOf(d.method_.signature) == Some(selector)
                  && d.method_.postRead.Some?
               then Some((d.method_.signature, d.method_.postRead.value))
               else LastFilter(abi, declared, address, selector))
  {
    assert (declared + [d])[..|declared|] == declared;
  }

  /**
    The filter a pair ends up with is the one its last declaration asks for if and only if that
    declaration has one or no declaration of the pair has: a filter cannot be declared away.
  */
  lemma FilterIsOfLastDeclarationExactly(abi: Abi, declared: seq<Declaration>, address: Address, selector: Selector,
      m: RawMethod)
    requires LastDeclared(abi, declared, address, selector) == Some(m)
    ensures LastFilter(abi, declared, address, selector) == FilterOf(m)
            <==> m.postRead.Some? || forall d :: d in declared ==> !DeclaresFilter(abi, d, address, selector)
  {
    LastIsOfPair(abi, declared, address, selector);
    NoFilterExactly(abi, declared, address, selector);
  }

  function FilterOf(m: RawMethod): Option<(string, int)> {
    if m.postRead.Some? then Some((m.signature, m.postRead.value)) else None
  }

  ghost predicate DeclaresFilter(abi: Abi, d: Declaration, address: Address, selector: Selector) {
    d.address == address && abi.selectorOf(d.method_.signature) == Some(selector) && d.method_.postRead.Some?
  }

  lemma {:induction false} NoFilterExactly(abi: Abi, declared: seq<Declaration>, address: Address, selector: Selector)
    ensures LastFilter(abi, declared, address, selector).None? <==>
      forall d :: d in declared ==> !DeclaresFilter(abi, d, address, selector)
  {
    if |declared| > 0 {
      var n := |declared| - 1;
      NoFilterExactly(abi, declared[..n], address, selector);
      assert declared[n] in declared && forall d :: d in declared <==> d in declared[..n] || d == declared[n];
    }
  }

  lemma {:induction false} LastIsOfPair(abi: Abi, declared: seq<Declaration>, address: Address, selector: Selector)
    ensures var last := LastDeclared(abi, declared, address, selector);
      last.Some? && last.value.postRead.Some? ==>
        LastFilter(abi, declared, address, selector) == Some((last.value.signature, last.value.postRead.value))
  {
    if |declared| > 0 {
      LastIsOfPair(abi, declared[..|declared| - 1], address, selector);
    }
  }

  /**
    oneOf is a disjunction as long as no alternative throws; when one does, an alternative that grants
    counts only in front of it.
  */
  lemma OneOfIsDisjunctionExactly(abi: Abi, groups: seq<RawGroup>, rules: seq<RawRule>, signature: string,
      user: Address,
                                  calldata: Calldata)
    ensures Meaning(abi, groups, OneOf(rules), signature, user, calldata) == Granted <==>
      exists i :: GrantsBeforeThrowing(abi, groups, rules, signature, user, calldata, i)
  {
    if i :| GrantsBeforeThrowing(abi, groups, rules, signature, user, calldata, i) {
      var k := FirstGranted(abi, groups, rules, signature, user, calldata, i);
      assert DecidesFirst(abi, groups, rules, signature, user, calldata, k, Granted);
    }
    if k :| DecidesFirst(abi, groups, rules, signature, user, calldata, k, Granted) {
      assert GrantsBeforeThrowing(abi, groups, rules, signature, user, calldata, k);
    }
  }

  ghost predicate GrantsBeforeThrowing(abi: Abi, groups: seq<RawGroup>, rules: seq<RawRule>, signature: string,
                                       user: Address, calldata: Calldata, i: int) {
    && 0 <= i < |rules|
    && Meaning(abi, groups, rules[i], signature, user, calldata) == Granted
    && forall j :: 0 <= j < i ==> Meaning(abi, groups, rules[j], signature, user, calldata) != Threw
  }

  lemma {:induction false} FirstGranted(abi: Abi, groups: seq<RawGroup>, rules: seq<RawRule>, signature: string,
      user: Address,
                                        calldata: Calldata, i: nat) returns (k: nat)
    requires i < |rules| && Meaning(abi, groups, rules[i], signature, user, calldata) == Granted
    ensures k <= i && Meaning(abi, groups, rules[k], signature, user, calldata) == Granted
    ensures forall j :: 0 <= j < k ==> Meaning(abi, groups, rules[j], signature, user, calldata) != Granted
  {
    k := i;
    if j :| 0 <= j < i && Meaning(abi, groups, rules[j], signature, user, calldata) == Granted {
      k := FirstGranted(abi, groups, rules, signature, user, calldata, j);
    }
  }

  /** A public rule behind a check of an argument that cannot be decoded: the call throws; in front of it, it passes. */
  lemma OneOfIsNotSymmetric(abi: Abi, groups: seq<RawGroup>, signature: string, user: Address, calldata: Calldata)
    requires abi.decodeAddress(signature, calldata, 0) == None
    ensures Meaning(abi, groups, OneOf([CheckArgument(0), Public]), signature, user, calldata) == Threw
    ensures Meaning(abi, groups, OneOf([Public, CheckArgument(0)]), signature, user, calldata) == Granted
  {
    var back, front := [CheckArgument(0), Public], [Public, CheckArgument(0)];
    assert DecidesFirst(abi, groups, back, signature, user, calldata, 0, Threw);
    assert !(exists i :: DecidesFirst(abi, groups, back, signature, user, calldata, i, Granted)) by {
      assert Meaning(abi, groups, back[0], signature, user, calldata) == Threw;
    }
    assert DecidesFirst(abi, groups, front, signature, user, calldata, 0, Granted);
  }

  /** Declared with a filter, and declared again without one: the filter stays. */
  lemma FilterCannotBeDeclaredAway(abi: Abi, address: Address, selector: Selector, signature: string)
      returns (file: File)
    requires abi.selectorOf(signature) == Some(selector)
    ensures var declared := Declarations(file.contracts);
      && LastDeclared(abi, declared, address, selector) == Some(RawMethod(signature, Public, Public, None))
      && LastFilter(abi, declared, address, selector) == Some((signature, 0))
  {
    var with, without := RawMethod(signature, Public, Public, Some(0)), RawMethod(signature, Public, Public, None);
    var contract := RawContract(address, [with, without]);
    file := File([], [contract]);
    assert file.contracts[..0] == [];
    var declared := [Declaration(address, with), Declaration(address, without)];
    assert DeclarationsOf(contract) == declared;
    assert Declarations(file.contracts) == [] + declared == declared;
    assert declared[..1] == [Declaration(address, with)];
  }
}
