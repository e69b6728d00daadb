/** The declarations a class use-site scope works on: callable members, the
    symbols that stand for them, and the injected type comparator. */
module FirMembers {

  datatype Option<T> = None | Some(value: T)

  /** The programming error raised when a declared candidate of an unexpected
      callable kind reaches the kind comparison. */
  datatype FatalError = UnknownFirCallableType(member: FirCallableMember, self: FirCallableMember)

  datatype Result<T> = Success(value: T) | Failure(error: FatalError)

  type Name = string

  /** A resolved type. Its structure is deliberately not modelled: only the
      type comparator gives it meaning. */
  datatype ConeKotlinType = ConeKotlinType(id: nat)

  /** A resolved type reference (unresolved references are not modelled). */
  datatype FirTypeRef = FirResolvedTypeRef(coneType: ConeKotlinType)

  datatype Modality = Final | Sealed | Open | Abstract

  datatype FirValueParameter = FirValueParameter(returnTypeRef: FirTypeRef)

  /** The kinds of callable member. `OtherCallable` stands for any further
      subclass of the callable-member hierarchy. */
  datatype CallableKind =
    | NamedFunction(valueParameters: seq<FirValueParameter>)
    | Constructor(valueParameters: seq<FirValueParameter>)
    | Property
    | OtherCallable

  datatype FirCallableMember = FirCallableMember(
    name: Name,
    kind: CallableKind,
    receiverTypeRef: Option<FirTypeRef>,
    returnTypeRef: FirTypeRef,
    modality: Modality,
    isOverride: bool)

  /** A callable symbol: a stable identity together with the declaration it stands for. */
  datatype Symbol = Symbol(id: nat, fir: FirCallableMember)

  /** The subtype and type-equality capability. Both are total functions, so
      every query has one fixed answer. */
  datatype TypeComparator = TypeComparator(
    isSubtypeOf: (ConeKotlinType, ConeKotlinType) -> bool,
    isEqualTypes: (ConeKotlinType, ConeKotlinType) -> bool)

  function IsSubtypeOf(cmp: TypeComparator, subTypeRef: FirTypeRef, superTypeRef: FirTypeRef): bool {
    cmp.isSubtypeOf(subTypeRef.coneType, superTypeRef.coneType)
  }

  function IsEqualTypes(cmp: TypeComparator, a: FirTypeRef, b: FirTypeRef): bool {
    cmp.isEqualTypes(a.coneType, b.coneType)
  }
}
