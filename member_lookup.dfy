/** The by-name member lookup of a class use-site scope, as functions of the
    scopes' contents, the processor and the override cache. */
module MemberLookup {
  import opened FirMembers
  import opened OverrideRules

  datatype ProcessorAction = Next | Stop

  /** A caller-supplied member processor. It may keep state, but the only
      inputs it ever sees are the members passed to it, so it is a function of
      the members already passed in this lookup (oldest first) and the new one. */
  type Processor = (seq<Symbol>, Symbol) -> ProcessorAction

  /** Override decisions keyed by base symbol. A key mapped to None means
      "computed, no override"; an absent key means "not yet computed". */
  type OverrideCache = map<Symbol, Option<Symbol>>

  datatype CallableCategory = Functions | Properties

  /** A name-indexed scope: for each name, its functions and its properties
      in iteration order. A missing name has no members. */
  datatype MemberScope = MemberScope(functions: map<Name, seq<Symbol>>, properties: map<Name, seq<Symbol>>)

  function ByName(scope: MemberScope, category: CallableCategory, name: Name): seq<Symbol> {
    var m := if category == Functions then scope.functions else scope.properties;
    if name in m then m[name] else []
  }

  function CategoryOf(s: Symbol): CallableCategory {
    if s.fir.kind.Property? then Properties else Functions
  }

  /** Every member is listed under its own name and its own category. */
  ghost predicate WellFormedScope(scope: MemberScope) {
    forall c: CallableCategory, n: Name, b: Symbol :: b in ByName(scope, c, n) ==> b.fir.name == n && CategoryOf(b) == c
  }

  /** A scope's traversal: each member is passed to the processor in order and
      the traversal halts at the first Stop. Gives the final action and all
      members passed so far. */
  function Drain(members: seq<Symbol>, processor: Processor, passed: seq<Symbol>): (ProcessorAction, seq<Symbol>)
    decreases |members|
  {
    if members == [] then (Next, passed)
    else if processor(passed, members[0]) == Stop then (Stop, passed + [members[0]])
    else Drain(members[1..], processor, passed + [members[0]])
  }

  /** The traversal contract: a prefix of the members is passed on, each
      answered Next except possibly the last; the traversal reports Stop
      exactly when the last answer was Stop, and otherwise passed every member. */
  lemma {:induction false} DrainContract(members: seq<Symbol>, processor: Processor, passed: seq<Symbol>)
    ensures var r := Drain(members, processor, passed);
            && passed <= r.1 <= passed + members
            && (r.0 == Next ==> r.1 == passed + members)
            && (r.0 == Stop ==> |passed| < |r.1|)
            && forall i :: |passed| <= i < |r.1| ==>
                 (processor(r.1[..i], r.1[i]) == Stop <==> i == |r.1| - 1 && r.0 == Stop)
    decreases |members|
  {
    if members != [] {
      var next := passed + [members[0]];
      assert next[..|passed|] == passed && next[|passed|] == members[0];
      if processor(passed, members[0]) != Stop {
        DrainContract(members[1..], processor, next);
        var r := Drain(members[1..], processor, next);
        assert next + members[1..] == passed + members;
        assert r.1[..|next|] == next;
        assert r.1[..|passed|] == passed && r.1[|passed|] == members[0];
        forall i | |passed| <= i < |r.1|
          ensures processor(r.1[..i], r.1[i]) == Stop <==> i == |r.1| - 1 && r.0 == Stop
        {
          if i == |passed| {
            assert processor(r.1[..i], r.1[i]) == Next;
          }
        }
      }
    }
  }

  /** After a completed declared phase, the lookup is the supertype phase. */
  lemma LookupAfterDeclared(cmp: TypeComparator, cache: OverrideCache, declared: seq<Symbol>, bases: seq<Symbol>,
                            processor: Processor, passed: seq<Symbol>)
    requires Drain(declared, processor, []) == (Next, passed)
    ensures Lookup(cmp, cache, declared, bases, processor) ==
            SupertypePass(cmp, cache, SeenOf(declared), bases, processor, passed)
  {
  }

  /** Adding to an insertion-ordered set: the members already there keep
      their places, and `s` is added at the end unless it is already present. */
  function Record(seen: seq<Symbol>, s: Symbol): (r: seq<Symbol>)
    ensures seen <= r && |r| <= |seen| + 1
    ensures forall x :: x in r <==> x in seen || x == s
    ensures NoDuplicates(seen) ==> NoDuplicates(r)
  {
    if s in seen then seen else seen + [s]
  }

  ghost predicate NoDuplicates(s: seq<Symbol>) {
    forall i, j :: 0 <= i < j < |s| ==> s[i] != s[j]
  }

  /** The seen-set after recording `members` one by one. */
  function SeenOf(members: seq<Symbol>): (r: seq<Symbol>)
    ensures forall x :: x in r <==> x in members
    ensures NoDuplicates(r)
    ensures NoDuplicates(members) ==> r == members
  {
    if members == [] then []
    else
      var init := members[..|members| - 1];
      assert members == init + [members[|members| - 1]];
      assert NoDuplicates(members) ==> NoDuplicates(init) && members[|members| - 1] !in init;
      Record(SeenOf(init), members[|members| - 1])
  }

  /** Recording more members never reorders the earlier ones: the seen-set of
      a prefix is a prefix of the seen-set. */
  lemma {:induction false} SeenOfPrefix(members: seq<Symbol>, k: nat)
    requires k <= |members|
    ensures SeenOf(members[..k]) <= SeenOf(members)
    decreases |members|
  {
    if k < |members| {
      var init := members[..|members| - 1];
      assert members[..k] == init[..k];
      SeenOfPrefix(init, k);
    } else {
      assert members[..k] == members;
    }
  }

  /** A member recorded for the first time at position `k` sits in the
      seen-set right after the members recorded before it. */
  lemma SeenOfFirstOccurrence(members: seq<Symbol>, k: nat)
    requires k < |members|
    requires members[k] !in members[..k]
    ensures var p := SeenOf(members[..k]);
            && p < SeenOf(members)
            && SeenOf(members)[|p|] == members[k]
  {
    assert members[..k + 1][..k] == members[..k];
    SeenOfPrefix(members, k + 1);
  }

  /** The overrider chosen against the seen-set is the first qualifying
      member in declaration order, unless some check fails. */
  lemma FirstDeclaredOverriderWins(cmp: TypeComparator, base: Symbol, declared: seq<Symbol>, k: nat)
    requires k < |declared|
    requires Overrides(cmp, declared[k].fir, base.fir) == Success(true)
    requires forall i :: 0 <= i < k ==> Overrides(cmp, declared[i].fir, base.fir) == Success(false)
    ensures FindOverriding(cmp, base, SeenOf(declared)).Success? ==>
              FindOverriding(cmp, base, SeenOf(declared)) == Success(Some(declared[k]))
  {
    var seen := SeenOf(declared);
    var p := SeenOf(declared[..k]);
    assert declared[k] !in declared[..k];
    SeenOfFirstOccurrence(declared, k);
    assert IsFirstOverriding(cmp, base, seen, |p|) by {
      forall j | 0 <= j < |p|
        ensures Overrides(cmp, seen[j].fir, base.fir) == Success(false)
      {
        assert seen[j] == p[j] && p[j] in declared[..k];
      }
    }
    var r := FindOverriding(cmp, base, seen);
    if r.Success? {
      assert r != Success(None);
      var k' :| IsFirstOverriding(cmp, base, seen, k') && seen[k'] == r.value.value;
      assert k' == |p|;
    }
  }

  /** The memoized override decision for `base`: a cached answer is returned
      as it is; otherwise the decision is computed against `seen` and stored,
      unless it failed. */
  function IsOverriddenCached(cmp: TypeComparator, cache: OverrideCache, base: Symbol,
                              seen: seq<Symbol>): (r: (Result<Option<Symbol>>, OverrideCache))
    ensures base in cache ==> r == (Success(cache[base]), cache)
    ensures base !in cache ==> r.0 == FindOverriding(cmp, base, seen)
    ensures r.0.Success? ==> r.1 == cache[base := r.0.value]
    ensures r.0.Failure? ==> r.1 == cache
  {
    if base in cache then (Success(cache[base]), cache)
    else
      var d := FindOverriding(cmp, base, seen);
      if d.Success? then (d, cache[base := d.value]) else (d, cache)
  }

  datatype LookupResult = LookupResult(outcome: Result<ProcessorAction>, yielded: seq<Symbol>, cache: OverrideCache)

  /** The supertype phase: each base member is passed on only when no seen
      member overrides it; an overridden one is skipped as if the processor
      had answered Next. */
  function SupertypePass(cmp: TypeComparator, cache: OverrideCache, seen: seq<Symbol>, bases: seq<Symbol>,
                         processor: Processor, passed: seq<Symbol>): LookupResult
    decreases |bases|
  {
    if bases == [] then LookupResult(Success(Next), passed, cache)
    else
      var (d, cache') := IsOverriddenCached(cmp, cache, bases[0], seen);
      match d
      case Failure(e) => LookupResult(Failure(e), passed, cache')
      case Success(None) =>
        if processor(passed, bases[0]) == Stop then LookupResult(Success(Stop), passed + [bases[0]], cache')
        else SupertypePass(cmp, cache', seen, bases[1..], processor, passed + [bases[0]])
      case Success(Some(_)) => SupertypePass(cmp, cache', seen, bases[1..], processor, passed)
  }

  /** A whole lookup: the declared phase, then, unless it stopped, the
      supertype phase against the members the declared phase recorded. */
  function Lookup(cmp: TypeComparator, cache: OverrideCache, declared: seq<Symbol>, bases: seq<Symbol>,
                  processor: Processor): LookupResult
  {
    var (action, passed) := Drain(declared, processor, []);
    if action == Stop then LookupResult(Success(Stop), passed, cache)
    else SupertypePass(cmp, cache, SeenOf(declared), bases, processor, passed)
  }

  /** The base members that no seen member overrides, in order. */
  function Inherited(cmp: TypeComparator, seen: seq<Symbol>, bases: seq<Symbol>): (r: seq<Symbol>)
    ensures forall b :: b in r <==> b in bases && FindOverriding(cmp, b, seen) == Success(None)
  {
    if bases == [] then []
    else
      var rest := Inherited(cmp, seen, bases[1..]);
      assert forall b :: b in bases <==> b == bases[0] || b in bases[1..];
      if FindOverriding(cmp, bases[0], seen) == Success(None) then [bases[0]] + rest else rest
  }

  /** The class's effective members of one name: the declared members first,
      then the inherited ones they do not override. */
  function EffectiveMembers(cmp: TypeComparator, declared: seq<Symbol>, bases: seq<Symbol>): seq<Symbol> {
    declared + Inherited(cmp, SeenOf(declared), bases)
  }

  /** Every cached decision for one of `bases` is the one computed afresh. */
  ghost predicate CacheAgrees(cmp: TypeComparator, cache: OverrideCache, seen: seq<Symbol>, bases: seq<Symbol>) {
    forall b :: b in bases && b in cache ==> FindOverriding(cmp, b, seen) == Success(cache[b])
  }

  /** No decision about one of `bases` is a fatal error. */
  ghost predicate NoFatal(cmp: TypeComparator, seen: seq<Symbol>, bases: seq<Symbol>) {
    forall b :: b in bases ==> FindOverriding(cmp, b, seen).Success?
  }

  /** The cache of a whole use-site scope: each entry is the decision computed
      against the declared members of the base member's own name and category. */
  ghost predicate SoundCache(cmp: TypeComparator, declaredScope: MemberScope, cache: OverrideCache) {
    forall b :: b in cache ==>
      FindOverriding(cmp, b, SeenOf(ByName(declaredScope, CategoryOf(b), b.fir.name))) == Success(cache[b])
  }

  /** Feeding two lists one after the other is feeding their concatenation. */
  lemma {:induction false} DrainAppend(xs: seq<Symbol>, ys: seq<Symbol>, processor: Processor, passed: seq<Symbol>)
    ensures Drain(xs + ys, processor, passed) ==
            (var d := Drain(xs, processor, passed);
             if d.0 == Stop then d else Drain(ys, processor, d.1))
    decreases |xs|
  {
    if xs == [] {
      assert xs + ys == ys;
    } else {
      assert (xs + ys)[0] == xs[0];
      assert (xs + ys)[1..] == xs[1..] + ys;
      if processor(passed, xs[0]) != Stop {
        DrainAppend(xs[1..], ys, processor, passed + [xs[0]]);
      }
    }
  }

  /** If the declared phase stops, the lookup stops with it and the supertype
      scope is never consulted: the result does not depend on it and the
      cache is untouched. */
  lemma DeclaredStopSkipsSupertypes(cmp: TypeComparator, cache: OverrideCache, declared: seq<Symbol>,
                                    bases1: seq<Symbol>, bases2: seq<Symbol>, processor: Processor)
    requires Drain(declared, processor, []).0 == Stop
    ensures Lookup(cmp, cache, declared, bases1, processor) == Lookup(cmp, cache, declared, bases2, processor)
    ensures Lookup(cmp, cache, declared, bases1, processor) ==
            LookupResult(Success(Stop), Drain(declared, processor, []).1, cache)
  {
  }

  /** The supertype phase only adds to the cache: old entries keep their
      values, and each new entry is the fresh decision for one of `bases`. */
  lemma {:induction false} SupertypePassCacheUpdate(cmp: TypeComparator, cache: OverrideCache, seen: seq<Symbol>,
                                                    bases: seq<Symbol>, processor: Processor, passed: seq<Symbol>)
    ensures var r := SupertypePass(cmp, cache, seen, bases, processor, passed);
            && cache.Keys <= r.cache.Keys
            && (forall b :: b in cache ==> r.cache[b] == cache[b])
            && (forall b :: b in r.cache && b !in cache ==>
                  b in bases && FindOverriding(cmp, b, seen) == Success(r.cache[b]))
    decreases |bases|
  {
    if bases != [] {
      var (d, cache') := IsOverriddenCached(cmp, cache, bases[0], seen);
      if d.Success? {
        SupertypePassCacheUpdate(cmp, cache', seen, bases[1..], processor,
                                 if d.value.None? then passed + [bases[0]] else passed);
      }
    }
  }

  /** Under an agreeing cache, every decision the supertype phase reads,
      cached or not, is the fresh one. */
  lemma CachedDecisionIsFresh(cmp: TypeComparator, cache: OverrideCache, seen: seq<Symbol>, bases: seq<Symbol>)
    requires bases != []
    requires CacheAgrees(cmp, cache, seen, bases)
    ensures IsOverriddenCached(cmp, cache, bases[0], seen).0 == FindOverriding(cmp, bases[0], seen)
    ensures CacheAgrees(cmp, IsOverriddenCached(cmp, cache, bases[0], seen).1, seen, bases[1..])
  {
    assert bases[0] in bases;
  }

  /** The supertype phase passes on exactly the inherited members, with the
      scope's early stop, provided the cache agrees and no decision fails. */
  lemma {:induction false} SupertypePassFeedsInherited(cmp: TypeComparator, cache: OverrideCache, seen: seq<Symbol>,
                                                       bases: seq<Symbol>, processor: Processor, passed: seq<Symbol>)
    requires CacheAgrees(cmp, cache, seen, bases)
    requires NoFatal(cmp, seen, bases)
    ensures var r := SupertypePass(cmp, cache, seen, bases, processor, passed);
            var d := Drain(Inherited(cmp, seen, bases), processor, passed);
            r.outcome == Success(d.0) && r.yielded == d.1
    decreases |bases|
  {
    if bases != [] {
      CachedDecisionIsFresh(cmp, cache, seen, bases);
      var (d, cache') := IsOverriddenCached(cmp, cache, bases[0], seen);
      assert bases[0] in bases;
      SupertypePassFeedsInherited(cmp, cache', seen, bases[1..], processor,
                                  if d.value.None? then passed + [bases[0]] else passed);
      if d.value.None? {
        assert Inherited(cmp, seen, bases) == [bases[0]] + Inherited(cmp, seen, bases[1..]);
        assert ([bases[0]] + Inherited(cmp, seen, bases[1..]))[1..] == Inherited(cmp, seen, bases[1..]);
      }
    }
  }

  /** The lookup is the scope's traversal of the effective member list:
      declared members first, then the inherited members they do not override,
      halting at the processor's first Stop. */
  lemma LookupFeedsEffectiveMembers(cmp: TypeComparator, cache: OverrideCache, declared: seq<Symbol>,
                                    bases: seq<Symbol>, processor: Processor)
    requires CacheAgrees(cmp, cache, SeenOf(declared), bases)
    requires NoFatal(cmp, SeenOf(declared), bases)
    ensures var r := Lookup(cmp, cache, declared, bases, processor);
            var d := Drain(EffectiveMembers(cmp, declared, bases), processor, []);
            r.outcome == Success(d.0) && r.yielded == d.1
  {
    DrainAppend(declared, Inherited(cmp, SeenOf(declared), bases), processor, []);
    if Drain(declared, processor, []).0 == Next {
      SupertypePassFeedsInherited(cmp, cache, SeenOf(declared), bases, processor, Drain(declared, processor, []).1);
    }
  }

  /** An agreeing cache is invisible: the supertype phase gives the same
      outcome and members as with an empty cache. */
  lemma {:induction false} SupertypePassCacheTransparent(cmp: TypeComparator, cache1: OverrideCache,
                                                         cache2: OverrideCache, seen: seq<Symbol>,
                                                         bases: seq<Symbol>, processor: Processor,
                                                         passed: seq<Symbol>)
    requires CacheAgrees(cmp, cache1, seen, bases)
    requires CacheAgrees(cmp, cache2, seen, bases)
    ensures var r1 := SupertypePass(cmp, cache1, seen, bases, processor, passed);
            var r2 := SupertypePass(cmp, cache2, seen, bases, processor, passed);
            r1.outcome == r2.outcome && r1.yielded == r2.yielded
    decreases |bases|
  {
    if bases != [] {
      CachedDecisionIsFresh(cmp, cache1, seen, bases);
      CachedDecisionIsFresh(cmp, cache2, seen, bases);
      var (d, cache1') := IsOverriddenCached(cmp, cache1, bases[0], seen);
      var (_, cache2') := IsOverriddenCached(cmp, cache2, bases[0], seen);
      if d.Success? {
        SupertypePassCacheTransparent(cmp, cache1', cache2', seen, bases[1..], processor,
                                      if d.value.None? then passed + [bases[0]] else passed);
      }
    }
  }

  /** After a lookup the cache still agrees with fresh decisions. */
  lemma LookupKeepsAgreement(cmp: TypeComparator, cache: OverrideCache, declared: seq<Symbol>,
                             bases: seq<Symbol>, processor: Processor)
    requires CacheAgrees(cmp, cache, SeenOf(declared), bases)
    ensures CacheAgrees(cmp, Lookup(cmp, cache, declared, bases, processor).cache, SeenOf(declared), bases)
  {
    if Drain(declared, processor, []).0 == Next {
      SupertypePassCacheUpdate(cmp, cache, SeenOf(declared), bases, processor, Drain(declared, processor, []).1);
    }
  }

  /** Extending a cache only by fresh decisions changes nothing the
      supertype phase reports, even when the cache holds stale entries. */
  lemma {:induction false} SupertypePassFreshExtension(cmp: TypeComparator, cache: OverrideCache,
                                                       ext: OverrideCache, seen: seq<Symbol>,
                                                       bases: seq<Symbol>, processor: Processor,
                                                       passed: seq<Symbol>)
    requires forall b :: b in cache ==> b in ext && ext[b] == cache[b]
    requires forall b :: b in ext && b !in cache ==> FindOverriding(cmp, b, seen) == Success(ext[b])
    ensures var r1 := SupertypePass(cmp, cache, seen, bases, processor, passed);
            var r2 := SupertypePass(cmp, ext, seen, bases, processor, passed);
            r1.outcome == r2.outcome && r1.yielded == r2.yielded
    decreases |bases|
  {
    if bases != [] {
      var (d1, cache') := IsOverriddenCached(cmp, cache, bases[0], seen);
      var (d2, ext') := IsOverriddenCached(cmp, ext, bases[0], seen);
      assert d1 == d2;
      if d1.Success? {
        SupertypePassFreshExtension(cmp, cache', ext', seen, bases[1..], processor,
                                    if d1.value.None? then passed + [bases[0]] else passed);
      }
    }
  }

  /** Repeating a lookup on the cache the first one left gives the identical
      outcome and members, whatever the cache held before. */
  lemma LookupIsRepeatable(cmp: TypeComparator, cache: OverrideCache, declared: seq<Symbol>,
                           bases: seq<Symbol>, processor: Processor)
    ensures var r1 := Lookup(cmp, cache, declared, bases, processor);
            var r2 := Lookup(cmp, r1.cache, declared, bases, processor);
            r2.outcome == r1.outcome && r2.yielded == r1.yielded
  {
    var (action, passed) := Drain(declared, processor, []);
    if action == Next {
      SupertypePassCacheUpdate(cmp, cache, SeenOf(declared), bases, processor, passed);
      var r1 := SupertypePass(cmp, cache, SeenOf(declared), bases, processor, passed);
      SupertypePassFreshExtension(cmp, cache, r1.cache, SeenOf(declared), bases, processor, passed);
    }
  }

  /** An agreeing cache is invisible to a whole lookup. */
  lemma LookupCacheTransparent(cmp: TypeComparator, cache1: OverrideCache, cache2: OverrideCache,
                               declared: seq<Symbol>, bases: seq<Symbol>, processor: Processor)
    requires CacheAgrees(cmp, cache1, SeenOf(declared), bases)
    requires CacheAgrees(cmp, cache2, SeenOf(declared), bases)
    ensures var r1 := Lookup(cmp, cache1, declared, bases, processor);
            var r2 := Lookup(cmp, cache2, declared, bases, processor);
            r1.outcome == r2.outcome && r1.yielded == r2.yielded
  {
    var (action, passed) := Drain(declared, processor, []);
    if action == Next {
      SupertypePassCacheTransparent(cmp, cache1, cache2, SeenOf(declared), bases, processor, passed);
    }
  }

  /** A sound scope-wide cache agrees with the fresh decisions of each
      by-name lookup of a well-formed supertype scope. */
  lemma SoundCacheAgrees(cmp: TypeComparator, declaredScope: MemberScope, superScope: MemberScope,
                         cache: OverrideCache, category: CallableCategory, name: Name)
    requires WellFormedScope(superScope)
    requires SoundCache(cmp, declaredScope, cache)
    ensures CacheAgrees(cmp, cache, SeenOf(ByName(declaredScope, category, name)), ByName(superScope, category, name))
  {
    var seen := SeenOf(ByName(declaredScope, category, name));
    forall b | b in ByName(superScope, category, name) && b in cache
      ensures FindOverriding(cmp, b, seen) == Success(cache[b])
    {
      assert b.fir.name == name && CategoryOf(b) == category;
    }
  }

  /** The cache a by-name lookup leaves behind is still sound. */
  lemma LookupLeavesCacheSound(cmp: TypeComparator, declaredScope: MemberScope, superScope: MemberScope,
                                    cache: OverrideCache, category: CallableCategory, name: Name,
                                    processor: Processor)
    requires WellFormedScope(superScope)
    requires SoundCache(cmp, declaredScope, cache)
    ensures SoundCache(cmp, declaredScope,
                       Lookup(cmp, cache, ByName(declaredScope, category, name),
                              ByName(superScope, category, name), processor).cache)
  {
    var declared := ByName(declaredScope, category, name);
    var bases := ByName(superScope, category, name);
    var seen := SeenOf(declared);
    var (action, passed) := Drain(declared, processor, []);
    if action == Next {
      SupertypePassCacheUpdate(cmp, cache, seen, bases, processor, passed);
      var c := SupertypePass(cmp, cache, seen, bases, processor, passed).cache;
      forall b | b in c
        ensures FindOverriding(cmp, b, SeenOf(ByName(declaredScope, CategoryOf(b), b.fir.name))) == Success(c[b])
      {
        if b !in cache {
          assert b in bases;
          assert b.fir.name == name && CategoryOf(b) == category;
        }
      }
    }
  }

  /** For a well-formed supertype scope, a sound scope-wide cache stays sound
      across by-name lookups, and each lookup answers as with an empty cache. */
  lemma ScopedLookupKeepsSoundCache(cmp: TypeComparator, declaredScope: MemberScope, superScope: MemberScope,
                                    cache: OverrideCache, category: CallableCategory, name: Name,
                                    processor: Processor)
    requires WellFormedScope(superScope)
    requires SoundCache(cmp, declaredScope, cache)
    ensures var declared := ByName(declaredScope, category, name);
            var bases := ByName(superScope, category, name);
            var r := Lookup(cmp, cache, declared, bases, processor);
            var f := Lookup(cmp, map[], declared, bases, processor);
            && SoundCache(cmp, declaredScope, r.cache)
            && r.outcome == f.outcome && r.yielded == f.yielded
  {
    LookupLeavesCacheSound(cmp, declaredScope, superScope, cache, category, name, processor);
    SoundCacheAgrees(cmp, declaredScope, superScope, cache, category, name);
    LookupCacheTransparent(cmp, cache, map[], ByName(declaredScope, category, name),
                           ByName(superScope, category, name), processor);
  }

  /** A None entry is an answer, not a gap: it is returned even where a fresh
      decision would now find an overrider, while an absent key is computed. */
  lemma CachedNoneIsNotAbsent(cmp: TypeComparator, cache: OverrideCache, base: Symbol, seen: seq<Symbol>, d: Symbol)
    requires base !in cache
    requires FindOverriding(cmp, base, seen) == Success(Some(d))
    ensures IsOverriddenCached(cmp, cache[base := None], base, seen) == (Success(None), cache[base := None])
    ensures IsOverriddenCached(cmp, cache, base, seen) == (Success(Some(d)), cache[base := Some(d)])
  {
  }

  /** The processor sees Stop at most once, at the last member passed, and
      then the supertype phase reports Stop. */
  lemma {:induction false} SupertypePassHonoursStop(cmp: TypeComparator, cache: OverrideCache, seen: seq<Symbol>,
                                                    bases: seq<Symbol>, processor: Processor, passed: seq<Symbol>)
    ensures var r := SupertypePass(cmp, cache, seen, bases, processor, passed);
            && passed <= r.yielded
            && (r.outcome == Success(Stop) ==> |passed| < |r.yielded|)
            && forall i :: |passed| <= i < |r.yielded| ==>
                 (processor(r.yielded[..i], r.yielded[i]) == Stop <==>
                  i == |r.yielded| - 1 && r.outcome == Success(Stop))
    decreases |bases|
  {
    if bases != [] {
      var (d, cache') := IsOverriddenCached(cmp, cache, bases[0], seen);
      if d.Success? {
        var next := if d.value.None? then passed + [bases[0]] else passed;
        if !(d.value.None? && processor(passed, bases[0]) == Stop) {
          SupertypePassHonoursStop(cmp, cache', seen, bases[1..], processor, next);
          var r := SupertypePass(cmp, cache', seen, bases[1..], processor, next);
          if d.value.None? {
            assert r.yielded[..|passed|] == passed && r.yielded[|passed|] == bases[0];
          }
        }
      }
    }
  }

  /** With an agreeing cache, every member of the supertype phase that reaches
      the processor is a base member no seen member overrides. */
  lemma {:induction false} SupertypePassYieldsOnlyInherited(cmp: TypeComparator, cache: OverrideCache,
                                                            seen: seq<Symbol>, bases: seq<Symbol>,
                                                            processor: Processor, passed: seq<Symbol>)
    requires CacheAgrees(cmp, cache, seen, bases)
    ensures var r := SupertypePass(cmp, cache, seen, bases, processor, passed);
            && passed <= r.yielded
            && forall i :: |passed| <= i < |r.yielded| ==>
                 r.yielded[i] in bases && FindOverriding(cmp, r.yielded[i], seen) == Success(None)
    decreases |bases|
  {
    if bases != [] {
      CachedDecisionIsFresh(cmp, cache, seen, bases);
      var (d, cache') := IsOverriddenCached(cmp, cache, bases[0], seen);
      assert bases[0] in bases;
      if d.Success? {
        var next := if d.value.None? then passed + [bases[0]] else passed;
        SupertypePassYieldsOnlyInherited(cmp, cache', seen, bases[1..], processor, next);
        var r := SupertypePass(cmp, cache', seen, bases[1..], processor, next);
        assert forall b :: b in bases[1..] ==> b in bases;
        if d.value.None? {
          assert r.yielded[..|next|] == next;
          assert next[..|passed|] == passed && next[|passed|] == bases[0];
          assert r.yielded[..|passed|] == passed && r.yielded[|passed|] == bases[0];
        }
      }
    }
  }

  /** Early stop: the processor receives Stop at most once, at the last member
      it is given, and exactly then the lookup reports Stop. */
  lemma LookupHonoursStop(cmp: TypeComparator, cache: OverrideCache, declared: seq<Symbol>,
                          bases: seq<Symbol>, processor: Processor)
    ensures var r := Lookup(cmp, cache, declared, bases, processor);
            r.outcome == Success(Stop) ==> |r.yielded| > 0
    ensures var r := Lookup(cmp, cache, declared, bases, processor);
            forall i :: 0 <= i < |r.yielded| ==>
              (processor(r.yielded[..i], r.yielded[i]) == Stop <==>
               i == |r.yielded| - 1 && r.outcome == Success(Stop))
  {
    DrainContract(declared, processor, []);
    var (action, passed) := Drain(declared, processor, []);
    if action == Next {
      SupertypePassHonoursStop(cmp, cache, SeenOf(declared), bases, processor, passed);
      var r := Lookup(cmp, cache, declared, bases, processor);
      forall i | 0 <= i < |passed|
        ensures processor(r.yielded[..i], r.yielded[i]) == Next
      {
        assert r.yielded[..i] == passed[..i] && r.yielded[i] == passed[i];
      }
    }
  }

  /** Every declared member reaches the processor before any supertype
      member, whatever the cache holds: a stopped declared phase is the whole
      result, and a completed one is a prefix of it. */
  lemma DeclaredMembersComeFirst(cmp: TypeComparator, cache: OverrideCache, declared: seq<Symbol>,
                                 bases: seq<Symbol>, processor: Processor)
    ensures var r := Lookup(cmp, cache, declared, bases, processor);
            var d := Drain(declared, processor, []);
            && d.1 <= r.yielded
            && (d.0 == Stop ==> r.yielded == d.1 && |r.yielded| <= |declared| && r.yielded == declared[..|r.yielded|])
            && (d.0 == Next ==> declared <= r.yielded)
  {
    DrainContract(declared, processor, []);
    var (action, passed) := Drain(declared, processor, []);
    if action == Next {
      SupertypePassHonoursStop(cmp, cache, SeenOf(declared), bases, processor, passed);
    }
  }

  /** With an agreeing cache, the members that follow a completed declared
      phase are base members that no declared member overrides. */
  lemma AfterDeclaredOnlyInherited(cmp: TypeComparator, cache: OverrideCache, declared: seq<Symbol>,
                                   bases: seq<Symbol>, processor: Processor)
    requires CacheAgrees(cmp, cache, SeenOf(declared), bases)
    requires Drain(declared, processor, []).0 == Next
    ensures var r := Lookup(cmp, cache, declared, bases, processor);
            && declared <= r.yielded
            && forall i :: |declared| <= i < |r.yielded| ==>
                 r.yielded[i] in bases && FindOverriding(cmp, r.yielded[i], SeenOf(declared)) == Success(None)
  {
    DrainContract(declared, processor, []);
    SupertypePassYieldsOnlyInherited(cmp, cache, SeenOf(declared), bases, processor, Drain(declared, processor, []).1);
  }

  /** A base member is among the effective members exactly when it is also
      declared or no declared member overrides it. */
  lemma InheritedIsNotOverridden(cmp: TypeComparator, declared: seq<Symbol>, bases: seq<Symbol>, b: Symbol)
    requires b in bases
    ensures b in EffectiveMembers(cmp, declared, bases) <==>
              b in declared || FindOverriding(cmp, b, SeenOf(declared)) == Success(None)
  {
  }
}
