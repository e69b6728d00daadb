/** The class use-site scope: a class's effective members of one name,
    declared members first, then the supertype members they do not override. */
module UseSiteScope {
  import opened FirMembers
  import opened OverrideRules
  import opened MemberLookup

  class FirClassUseSiteScope {
    const superTypesScope: MemberScope
    const declaredMemberScope: MemberScope
    const comparator: TypeComparator

    /** Override decisions keyed by base symbol; None means "computed, none". */
    var overrides: OverrideCache

    constructor (superTypesScope: MemberScope, declaredMemberScope: MemberScope, comparator: TypeComparator)
      ensures this.superTypesScope == superTypesScope
      ensures this.declaredMemberScope == declaredMemberScope
      ensures this.comparator == comparator
      ensures overrides == map[]
      ensures CacheSound()
    {
      this.superTypesScope := superTypesScope;
      this.declaredMemberScope := declaredMemberScope;
      this.comparator := comparator;
      overrides := map[];
    }

    /** Each supertype member is listed under its own name and category. */
    ghost predicate ScopesWellFormed() {
      WellFormedScope(superTypesScope)
    }

    /** Every stored decision is the one computed afresh for its base member. */
    ghost predicate CacheSound()
      reads this
    {
      SoundCache(comparator, declaredMemberScope, overrides)
    }

    /** The memoized override decision for `base` against `seen`. */
    method IsOverridden(base: Symbol, seen: seq<Symbol>) returns (r: Result<Option<Symbol>>)
      modifies this`overrides
      ensures (r, overrides) == IsOverriddenCached(comparator, old(overrides), base, seen)
      ensures base in old(overrides) ==> r == Success(old(overrides)[base]) && overrides == old(overrides)
      ensures base !in old(overrides) ==> r == FindOverriding(comparator, base, seen)
      ensures r.Success? ==> base in overrides && overrides[base] == r.value
      ensures forall b :: b != base ==> (b in overrides <==> b in old(overrides))
      ensures forall b :: b != base && b in old(overrides) ==> overrides[b] == old(overrides)[b]
    {
      if base in overrides {
        return Success(overrides[base]);
      }
      r := FindOverriding(comparator, base, seen);
      if r.Success? {
        overrides := overrides[base := r.value];
      }
    }

    method ProcessFunctionsByName(name: Name, processor: Processor)
      returns (action: Result<ProcessorAction>, yielded: seq<Symbol>)
      modifies this`overrides
      ensures LookupResult(action, yielded, overrides) ==
              Lookup(comparator, old(overrides), ByName(declaredMemberScope, Functions, name),
                     ByName(superTypesScope, Functions, name), processor)
      ensures ScopesWellFormed() && old(CacheSound()) ==>
                && CacheSound()
                && var f := Lookup(comparator, map[], ByName(declaredMemberScope, Functions, name),
                                   ByName(superTypesScope, Functions, name), processor);
                   action == f.outcome && yielded == f.yielded
    {
      action, yielded := ProcessByName(Functions, name, processor);
    }

    method ProcessPropertiesByName(name: Name, processor: Processor)
      returns (action: Result<ProcessorAction>, yielded: seq<Symbol>)
      modifies this`overrides
      ensures LookupResult(action, yielded, overrides) ==
              Lookup(comparator, old(overrides), ByName(declaredMemberScope, Properties, name),
                     ByName(superTypesScope, Properties, name), processor)
      ensures ScopesWellFormed() && old(CacheSound()) ==>
                && CacheSound()
                && var f := Lookup(comparator, map[], ByName(declaredMemberScope, Properties, name),
                                   ByName(superTypesScope, Properties, name), processor);
                   action == f.outcome && yielded == f.yielded
    {
      action, yielded := ProcessByName(Properties, name, processor);
    }

    /** The lookup shared by functions and properties. `yielded` lists every
        member passed to the processor, in order. */
    method ProcessByName(category: CallableCategory, name: Name, processor: Processor)
      returns (action: Result<ProcessorAction>, yielded: seq<Symbol>)
      modifies this`overrides
      ensures LookupResult(action, yielded, overrides) ==
              Lookup(comparator, old(overrides), ByName(declaredMemberScope, category, name),
                     ByName(superTypesScope, category, name), processor)
      ensures ScopesWellFormed() && old(CacheSound()) ==>
                && CacheSound()
                && var f := Lookup(comparator, map[], ByName(declaredMemberScope, category, name),
                                   ByName(superTypesScope, category, name), processor);
                   action == f.outcome && yielded == f.yielded
    {
      if ScopesWellFormed() && CacheSound() {
        ScopedLookupKeepsSoundCache(comparator, declaredMemberScope, superTypesScope, overrides,
                                    category, name, processor);
      }
      var declared := ByName(declaredMemberScope, category, name);
      var declaredAction, seen;
      declaredAction, seen, yielded := ProcessDeclaredMembers(declared, processor);
      if declaredAction == Stop {
        return Success(Stop), yielded;
      }
      var bases := ByName(superTypesScope, category, name);
      LookupAfterDeclared(comparator, overrides, declared, bases, processor, yielded);
      action, yielded := ProcessSupertypeMembers(bases, seen, processor, yielded);
    }

    /** The declared phase: each declared member is recorded in a fresh
        seen-set and passed to the processor, until it answers Stop. */
    method ProcessDeclaredMembers(declared: seq<Symbol>, processor: Processor)
      returns (action: ProcessorAction, seen: seq<Symbol>, yielded: seq<Symbol>)
      ensures (action, yielded) == Drain(declared, processor, [])
      ensures action == Next ==> seen == SeenOf(declared)
    {
      seen := [];
      yielded := [];
      var i := 0;
      while i < |declared|
        invariant 0 <= i <= |declared|
        invariant seen == SeenOf(declared[..i])
        invariant Drain(declared, processor, []) == Drain(declared[i..], processor, yielded)
      {
        assert declared[..i + 1][..i] == declared[..i];
        seen := Record(seen, declared[i]);
        var a := processor(yielded, declared[i]);
        yielded := yielded + [declared[i]];
        if a == Stop {
          return Stop, seen, yielded;
        }
        i := i + 1;
      }
      assert declared[..i] == declared;
      return Next, seen, yielded;
    }

    /** The supertype phase: each base member is passed to the processor
        only when no member of `seen` overrides it. */
    method ProcessSupertypeMembers(bases: seq<Symbol>, seen: seq<Symbol>, processor: Processor, passed: seq<Symbol>)
      returns (action: Result<ProcessorAction>, yielded: seq<Symbol>)
      modifies this`overrides
      ensures LookupResult(action, yielded, overrides) ==
              SupertypePass(comparator, old(overrides), seen, bases, processor, passed)
    {
      yielded := passed;
      var j := 0;
      while j < |bases|
        invariant 0 <= j <= |bases|
        invariant SupertypePass(comparator, old(overrides), seen, bases, processor, passed) ==
                  SupertypePass(comparator, overrides, seen, bases[j..], processor, yielded)
      {
        var b := bases[j];
        assert bases[j..][0] == b && bases[j..][1..] == bases[j + 1..];
        var overriddenBy := IsOverridden(b, seen);
        match overriddenBy {
          case Failure(e) =>
            return Failure(e), yielded;
          case Success(None) =>
            var a := processor(yielded, b);
            yielded := yielded + [b];
            if a == Stop {
              return Success(Stop), yielded;
            }
          case Success(Some(_)) =>
        }
        j := j + 1;
      }
      return Success(Next), yielded;
    }
  }
}
