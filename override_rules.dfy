/** The override decision: whether one declared member overrides a base
    member, and which member of a seen-set is taken as the overrider. */
module OverrideRules {
  import opened FirMembers

  /** Pairwise type equality over the zipped parameter lists; zipping stops
      at the end of the shorter list. */
  function ZipAllEqualTypes(cmp: TypeComparator, memberParams: seq<FirValueParameter>,
                            selfParams: seq<FirValueParameter>): (r: bool)
    ensures r <==> forall i :: 0 <= i < |memberParams| && i < |selfParams| ==>
                      IsEqualTypes(cmp, memberParams[i].returnTypeRef, selfParams[i].returnTypeRef)
  {
    if memberParams == [] || selfParams == [] then true
    else
      var rest := ZipAllEqualTypes(cmp, memberParams[1..], selfParams[1..]);
      assert rest <==> forall i :: 1 <= i < |memberParams| && i < |selfParams| ==>
                         IsEqualTypes(cmp, memberParams[i].returnTypeRef, selfParams[i].returnTypeRef) by {
        forall i | 1 <= i < |memberParams| && i < |selfParams|
          ensures memberParams[i] == memberParams[1..][i - 1] && selfParams[i] == selfParams[1..][i - 1]
        {
        }
      }
      IsEqualTypes(cmp, memberParams[0].returnTypeRef, selfParams[0].returnTypeRef) && rest
  }

  /** Two functions have similar signatures: the same number of value
      parameters, with equal types position by position. */
  function IsOverriddenFunCheck(cmp: TypeComparator, memberParams: seq<FirValueParameter>,
                                selfParams: seq<FirValueParameter>): (r: bool)
    ensures r <==> |memberParams| == |selfParams| &&
                   forall i :: 0 <= i < |memberParams| ==>
                     IsEqualTypes(cmp, memberParams[i].returnTypeRef, selfParams[i].returnTypeRef)
  {
    |memberParams| == |selfParams| && ZipAllEqualTypes(cmp, memberParams, selfParams)
  }

  /** Receivers match when both are absent, or both present and equal. */
  function SameReceivers(cmp: TypeComparator, memberTypeRef: Option<FirTypeRef>,
                         selfTypeRef: Option<FirTypeRef>): (r: bool)
    ensures memberTypeRef.Some? != selfTypeRef.Some? ==> !r
    ensures memberTypeRef.None? && selfTypeRef.None? ==> r
    ensures memberTypeRef.Some? && selfTypeRef.Some? ==>
              (r <==> IsEqualTypes(cmp, memberTypeRef.value, selfTypeRef.value))
  {
    if memberTypeRef.Some? && selfTypeRef.Some? then IsEqualTypes(cmp, memberTypeRef.value, selfTypeRef.value)
    else memberTypeRef.None? && selfTypeRef.None?
  }

  /** Kind compatibility of a declared candidate `member` with a base member
      `self`. The comparison is driven by the candidate's kind; a candidate of
      any other kind is a fatal error. */
  function SimilarFunctionsOrBothProperties(cmp: TypeComparator, member: FirCallableMember,
                                            self: FirCallableMember): (r: Result<bool>)
    ensures r.Failure? <==> member.kind.OtherCallable?
    ensures r.Failure? ==> r.error == UnknownFirCallableType(member, self)
    ensures r == Success(true) <==>
              || (member.kind.NamedFunction? && self.kind.NamedFunction? &&
                  IsOverriddenFunCheck(cmp, member.kind.valueParameters, self.kind.valueParameters))
              || (member.kind.Property? && self.kind.Property?)
    ensures member.kind.Constructor? || self.kind.Constructor? ==> r != Success(true)
  {
    match member.kind
    case NamedFunction(memberParams) =>
      Success(self.kind.NamedFunction? && IsOverriddenFunCheck(cmp, memberParams, self.kind.valueParameters))
    case Constructor(_) => Success(false)
    case Property => Success(self.kind.Property?)
    case OtherCallable => Failure(UnknownFirCallableType(member, self))
  }

  /** Whether the declared `member` overrides the base `self`: the override
      marker, a non-final base, matching receivers, a covariant return type and
      compatible kinds, checked in this order and stopping at the first that fails. */
  function Overrides(cmp: TypeComparator, member: FirCallableMember, self: FirCallableMember): (r: Result<bool>)
    ensures r == Success(true) <==>
              && member.isOverride
              && self.modality != Final
              && SameReceivers(cmp, member.receiverTypeRef, self.receiverTypeRef)
              && IsSubtypeOf(cmp, member.returnTypeRef, self.returnTypeRef)
              && SimilarFunctionsOrBothProperties(cmp, member, self) == Success(true)
    ensures r.Failure? <==>
              && member.isOverride
              && self.modality != Final
              && SameReceivers(cmp, member.receiverTypeRef, self.receiverTypeRef)
              && IsSubtypeOf(cmp, member.returnTypeRef, self.returnTypeRef)
              && member.kind.OtherCallable?
    ensures self.modality == Final ==> r == Success(false)
    ensures !member.isOverride ==> r == Success(false)
  {
    if member.isOverride && self.modality != Final
       && SameReceivers(cmp, member.receiverTypeRef, self.receiverTypeRef)
       && IsSubtypeOf(cmp, member.returnTypeRef, self.returnTypeRef)
    then SimilarFunctionsOrBothProperties(cmp, member, self)
    else Success(false)
  }

  /** The members of `seen`, in order, that override `self`. Every member is
      examined, so a fatal error anywhere in `seen` aborts the whole filter. */
  function OverridingCandidates(cmp: TypeComparator, self: Symbol, seen: seq<Symbol>): (r: Result<seq<Symbol>>)
    ensures r.Success? <==> forall i :: 0 <= i < |seen| ==> Overrides(cmp, seen[i].fir, self.fir).Success?
    ensures r.Success? ==> forall x :: x in r.value <==> x in seen && Overrides(cmp, x.fir, self.fir) == Success(true)
    ensures r.Success? && r.value != [] ==>
              exists k :: 0 <= k < |seen| && seen[k] == r.value[0] &&
                forall j :: 0 <= j < k ==> Overrides(cmp, seen[j].fir, self.fir) == Success(false)
  {
    if seen == [] then Success([])
    else
      var head := Overrides(cmp, seen[0].fir, self.fir);
      var rest := OverridingCandidates(cmp, self, seen[1..]);
      assert forall i :: 1 <= i < |seen| ==> seen[i] == seen[1..][i - 1];
      if head.Failure? then Failure(head.error)
      else if rest.Failure? then Failure(rest.error)
      else if head.value then Success([seen[0]] + rest.value)
      else
        assert rest.value != [] ==>
                 exists k :: 1 <= k < |seen| && seen[k] == rest.value[0] &&
                   forall j :: 0 <= j < k ==> Overrides(cmp, seen[j].fir, self.fir) == Success(false) by {
          if rest.value != [] {
            var k' :| 0 <= k' < |seen[1..]| && seen[1..][k'] == rest.value[0] &&
                forall j :: 0 <= j < k' ==> Overrides(cmp, seen[1..][j].fir, self.fir) == Success(false);
            assert seen[k' + 1] == rest.value[0];
            forall j | 0 <= j < k' + 1 ensures Overrides(cmp, seen[j].fir, self.fir) == Success(false) {
              if j > 0 { assert seen[j] == seen[1..][j - 1]; }
            }
          }
        }
        Success(rest.value)
  }

  /** `seen` member `seen[k]` is the first that overrides `self`. */
  ghost predicate IsFirstOverriding(cmp: TypeComparator, self: Symbol, seen: seq<Symbol>, k: int) {
    && 0 <= k < |seen|
    && Overrides(cmp, seen[k].fir, self.fir) == Success(true)
    && forall j :: 0 <= j < k ==> Overrides(cmp, seen[j].fir, self.fir) == Success(false)
  }

  /** The declared member that overrides `self`: the first qualifying member
      of `seen`, or None when none qualifies. */
  function FindOverriding(cmp: TypeComparator, self: Symbol, seen: seq<Symbol>): (r: Result<Option<Symbol>>)
    ensures r.Failure? <==> exists i :: 0 <= i < |seen| && Overrides(cmp, seen[i].fir, self.fir).Failure?
    ensures r == Success(None) <==> forall i :: 0 <= i < |seen| ==> Overrides(cmp, seen[i].fir, self.fir) == Success(false)
    ensures r.Success? && r.value.Some? ==>
              exists k :: IsFirstOverriding(cmp, self, seen, k) && seen[k] == r.value.value
  {
    var candidates := OverridingCandidates(cmp, self, seen);
    if candidates.Failure? then Failure(candidates.error)
    else if candidates.value == [] then
      assert forall i :: 0 <= i < |seen| ==> Overrides(cmp, seen[i].fir, self.fir) == Success(false) by {
        forall i | 0 <= i < |seen| ensures Overrides(cmp, seen[i].fir, self.fir) == Success(false) {
          assert seen[i] !in candidates.value;
        }
      }
      Success(None)
    else
      assert candidates.value[0] in candidates.value;
      var k :| 0 <= k < |seen| && seen[k] == candidates.value[0] &&
          forall j :: 0 <= j < k ==> Overrides(cmp, seen[j].fir, self.fir) == Success(false);
      assert IsFirstOverriding(cmp, self, seen, k);
      Success(Some(candidates.value[0]))
  }

  /** A final base member is never overridden. */
  lemma FinalIsNeverOverridden(cmp: TypeComparator, self: Symbol, seen: seq<Symbol>)
    requires self.fir.modality == Final
    ensures FindOverriding(cmp, self, seen) == Success(None)
  {
  }

  /** A declared member without the override marker never overrides anything. */
  lemma UnmarkedMemberNeverOverrides(cmp: TypeComparator, self: Symbol, seen: seq<Symbol>, d: Symbol)
    requires !d.fir.isOverride
    ensures FindOverriding(cmp, self, seen) != Success(Some(d))
  {
  }

  /** The chosen overrider passed every check against the base member. */
  lemma OverriderPassesAllChecks(cmp: TypeComparator, self: Symbol, seen: seq<Symbol>, d: Symbol)
    requires FindOverriding(cmp, self, seen) == Success(Some(d))
    ensures d in seen
    ensures d.fir.isOverride && self.fir.modality != Final
    ensures SameReceivers(cmp, d.fir.receiverTypeRef, self.fir.receiverTypeRef)
    ensures IsSubtypeOf(cmp, d.fir.returnTypeRef, self.fir.returnTypeRef)
    ensures || (d.fir.kind.Property? && self.fir.kind.Property?)
            || (&& d.fir.kind.NamedFunction? && self.fir.kind.NamedFunction?
                && |d.fir.kind.valueParameters| == |self.fir.kind.valueParameters|
                && forall i :: 0 <= i < |d.fir.kind.valueParameters| ==>
                     IsEqualTypes(cmp, d.fir.kind.valueParameters[i].returnTypeRef,
                                  self.fir.kind.valueParameters[i].returnTypeRef))
  {
    var k :| IsFirstOverriding(cmp, self, seen, k) && seen[k] == d;
  }

  /** Constructors take no part in overriding, neither as base nor as candidate. */
  lemma ConstructorsNeverOverride(cmp: TypeComparator, self: Symbol, seen: seq<Symbol>, d: Symbol)
    requires self.fir.kind.Constructor? || d.fir.kind.Constructor?
    ensures FindOverriding(cmp, self, seen) != Success(Some(d))
  {
    if FindOverriding(cmp, self, seen) == Success(Some(d)) {
      OverriderPassesAllChecks(cmp, self, seen, d);
    }
  }

  /** A fatal error can only come from a candidate of an unknown kind that
      carries the override marker, against a non-final base member, and that
      passes the receiver and return checks. */
  lemma FatalOnlyFromUnknownKind(cmp: TypeComparator, self: Symbol, seen: seq<Symbol>)
    requires FindOverriding(cmp, self, seen).Failure?
    ensures self.fir.modality != Final
    ensures exists i :: && 0 <= i < |seen|
                        && seen[i].fir.kind.OtherCallable?
                        && seen[i].fir.isOverride
                        && SameReceivers(cmp, seen[i].fir.receiverTypeRef, self.fir.receiverTypeRef)
                        && IsSubtypeOf(cmp, seen[i].fir.returnTypeRef, self.fir.returnTypeRef)
  {
    var i :| 0 <= i < |seen| && Overrides(cmp, seen[i].fir, self.fir).Failure?;
  }

  /** When several members would override, the first in `seen` order wins,
      whatever follows it. */
  lemma {:induction false} FirstCandidateWins(cmp: TypeComparator, self: Symbol, seen: seq<Symbol>, more: seq<Symbol>)
    requires FindOverriding(cmp, self, seen).Success?
    requires FindOverriding(cmp, self, seen).value.Some?
    requires FindOverriding(cmp, self, seen + more).Success?
    ensures FindOverriding(cmp, self, seen + more) == FindOverriding(cmp, self, seen)
  {
    var d := FindOverriding(cmp, self, seen).value.value;
    var k :| IsFirstOverriding(cmp, self, seen, k) && seen[k] == d;
    var all := seen + more;
    assert all[k] == seen[k];
    assert forall j :: 0 <= j < k ==> all[j] == seen[j];
    assert IsFirstOverriding(cmp, self, all, k);
    assert Overrides(cmp, all[k].fir, self.fir) == Success(true);
    var e := FindOverriding(cmp, self, all).value;
    var k' :| IsFirstOverriding(cmp, self, all, k') && all[k'] == e.value;
    assert k' == k;
  }

  /** The filter is eager: an unknown-kind candidate after a qualifying one
      still aborts the decision. */
  lemma LaterUnknownKindAborts(cmp: TypeComparator, self: Symbol, d1: Symbol, d2: Symbol)
    requires Overrides(cmp, d1.fir, self.fir) == Success(true)
    requires d2.fir.kind.OtherCallable? && d2.fir.isOverride && self.fir.modality != Final
    requires SameReceivers(cmp, d2.fir.receiverTypeRef, self.fir.receiverTypeRef)
    requires IsSubtypeOf(cmp, d2.fir.returnTypeRef, self.fir.returnTypeRef)
    ensures FindOverriding(cmp, self, [d1, d2]) == Failure(UnknownFirCallableType(d2.fir, self.fir))
  {
    assert [d1, d2][0] == d1 && [d1, d2][1..] == [d2] && [d2][1..] == [];
    assert OverridingCandidates(cmp, self, [d2]) == Failure(UnknownFirCallableType(d2.fir, self.fir));
  }
}
