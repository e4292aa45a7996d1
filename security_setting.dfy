/**
 * Page-delete permissions on the admin security settings page. There are
 * four deletion types, classified by two flags (recursive or not, move to
 * trash or delete completely). Each general type is paired with the
 * recursive type of the same kind. Changing a general setting can force the
 * paired recursive setting to follow it.
 *
 * `validateDeleteConfigs` lives in a utility file that is not part of this
 * model. It is the parameter `validate`, an arbitrary function of the
 * general and the recursive value.
 */
module Security {
  import opened Wrappers

  datatype DeletionType = Deletion | CompleteDeletion | RecursiveDeletion | RecursiveCompleteDeletion

  datatype PageDeleteConfigValue = Anyone | AdminAndAuthor | AdminOnly | Inherit

  /** A stored authority; `None` is a setting that is not set. */
  type Authority = Option<PageDeleteConfigValue>

  /** `validateDeleteConfigs(general, recursive)`. */
  type Validator = (Authority, Authority) -> bool

  /** `getDeletionTypeForT`: the translation-key prefix of a deletion type. */
  function DeletionTypeForT(t: DeletionType): (prefix: string)
    ensures prefix == "deletion" <==> t == Deletion
    ensures prefix == "complete_deletion" <==> t == CompleteDeletion
    ensures prefix == "recursive_deletion" <==> t == RecursiveDeletion
    ensures prefix == "recursive_complete_deletion" <==> t == RecursiveCompleteDeletion
  {
    match t
    case Deletion => "deletion"
    case RecursiveDeletion => "recursive_deletion"
    case CompleteDeletion => "complete_deletion"
    case RecursiveCompleteDeletion => "recursive_complete_deletion"
  }

  /** Distinct deletion types have distinct translation prefixes. */
  lemma DeletionTypeForTIsInjective(a: DeletionType, b: DeletionType)
    requires DeletionTypeForT(a) == DeletionTypeForT(b)
    ensures a == b
  {
  }

  /** `isRecursiveDeletion`. */
  predicate IsRecursiveDeletion(t: DeletionType)
  {
    t == RecursiveDeletion || t == RecursiveCompleteDeletion
  }

  /** `isTypeDeletion`: the types that move pages to the trash. */
  predicate IsTypeDeletion(t: DeletionType)
  {
    t == Deletion || t == RecursiveDeletion
  }

  /** The deletion type with the given two flags. */
  function TypeWithFlags(recursive: bool, typeDeletion: bool): (t: DeletionType)
    ensures IsRecursiveDeletion(t) == recursive && IsTypeDeletion(t) == typeDeletion
  {
    if recursive then (if typeDeletion then RecursiveDeletion else RecursiveCompleteDeletion)
    else (if typeDeletion then Deletion else CompleteDeletion)
  }

  /** The two flags determine the type, so each of the four combinations belongs to exactly one type. */
  lemma FlagsClassifyTypes(t: DeletionType, u: DeletionType)
    ensures TypeWithFlags(IsRecursiveDeletion(t), IsTypeDeletion(t)) == t
    ensures IsRecursiveDeletion(t) == IsRecursiveDeletion(u) && IsTypeDeletion(t) == IsTypeDeletion(u) ==> t == u
  {
  }

  /** The recursive type whose authority `getRecursiveDeletionConfigState` returns for a type. */
  function RecursivePartner(t: DeletionType): (p: DeletionType)
    ensures IsRecursiveDeletion(p)
    ensures IsTypeDeletion(p) == IsTypeDeletion(t)
  {
    if IsTypeDeletion(t) then RecursiveDeletion else RecursiveCompleteDeletion
  }

  /** The general type whose authority decides whether a recursive dropdown's AdminAndAuthor entry is disabled. */
  function GeneralPartner(t: DeletionType): (g: DeletionType)
    ensures !IsRecursiveDeletion(g)
    ensures IsTypeDeletion(g) == IsTypeDeletion(t)
  {
    if IsTypeDeletion(t) then Deletion else CompleteDeletion
  }

  /** Pairing a general type with its recursive partner and back is the identity, in both directions. */
  lemma PartnersAreInverse(t: DeletionType)
    ensures !IsRecursiveDeletion(t) ==> GeneralPartner(RecursivePartner(t)) == t
    ensures IsRecursiveDeletion(t) ==> RecursivePartner(GeneralPartner(t)) == t
  {
  }

  /** The four stored authorities. */
  datatype Authorities = Authorities(
    deletion: Authority,
    completeDeletion: Authority,
    recursiveDeletion: Authority,
    recursiveCompleteDeletion: Authority)
  {
    function Get(t: DeletionType): Authority
    {
      match t
      case Deletion => deletion
      case CompleteDeletion => completeDeletion
      case RecursiveDeletion => recursiveDeletion
      case RecursiveCompleteDeletion => recursiveCompleteDeletion
    }

    function Set(t: DeletionType, v: Authority): (r: Authorities)
      ensures r.Get(t) == v
      ensures forall u :: u != t ==> r.Get(u) == Get(u)
    {
      match t
      case Deletion => this.(deletion := v)
      case CompleteDeletion => this.(completeDeletion := v)
      case RecursiveDeletion => this.(recursiveDeletion := v)
      case RecursiveCompleteDeletion => this.(recursiveCompleteDeletion := v)
    }
  }

  /** The authorities after `setDeletionConfigState(newState, <setter of t>, t)`. */
  function AfterSetDeletionConfig(a: Authorities, newState: PageDeleteConfigValue, t: DeletionType, validate: Validator): Authorities
  {
    if IsRecursiveDeletion(t) then a.Set(t, Some(newState))
    else
      var partner := RecursivePartner(t);
      var shouldForceUpdate := !validate(Some(newState), a.Get(partner));
      if shouldForceUpdate then a.Set(t, Some(newState)).Set(partner, Some(newState))
      else a.Set(t, Some(newState))
  }

  /**
   * Setting an authority stores the new value for that type. For a
   * recursive type nothing else changes. For a general type the paired
   * recursive authority is overwritten with the same value exactly when the
   * validator rejects the pair (new value, old paired value); the other two
   * authorities never change.
   */
  lemma SetDeletionConfigEffect(a: Authorities, newState: PageDeleteConfigValue, t: DeletionType, validate: Validator)
    ensures var r := AfterSetDeletionConfig(a, newState, t, validate);
      && r.Get(t) == Some(newState)
      && (IsRecursiveDeletion(t) ==> forall u :: u != t ==> r.Get(u) == a.Get(u))
      && (!IsRecursiveDeletion(t) ==>
            && (r.Get(RecursivePartner(t)) == Some(newState) <==>
                  !validate(Some(newState), a.Get(RecursivePartner(t))) || a.Get(RecursivePartner(t)) == Some(newState))
            && (validate(Some(newState), a.Get(RecursivePartner(t))) ==> r.Get(RecursivePartner(t)) == a.Get(RecursivePartner(t)))
            && forall u :: u != t && u != RecursivePartner(t) ==> r.Get(u) == a.Get(u))
  {
  }

  /**
   * After a general setting changes, the pair (general, recursive) is
   * either one the validator accepts or the two settings are equal.
   */
  lemma SetGeneralLeavesPairValidOrEqual(a: Authorities, newState: PageDeleteConfigValue, t: DeletionType, validate: Validator)
    requires !IsRecursiveDeletion(t)
    ensures var r := AfterSetDeletionConfig(a, newState, t, validate);
      validate(r.Get(t), r.Get(RecursivePartner(t))) || r.Get(t) == r.Get(RecursivePartner(t))
  {
  }

  /** The container that holds the four authorities and their setters. */
  class AdminGeneralSecurityContainer {
    var currentPageDeletionAuthority: Authority
    var currentPageCompleteDeletionAuthority: Authority
    var currentPageRecursiveDeletionAuthority: Authority
    var currentPageRecursiveCompleteDeletionAuthority: Authority

    constructor (initial: Authorities)
      ensures State() == initial
    {
      currentPageDeletionAuthority := initial.deletion;
      currentPageCompleteDeletionAuthority := initial.completeDeletion;
      currentPageRecursiveDeletionAuthority := initial.recursiveDeletion;
      currentPageRecursiveCompleteDeletionAuthority := initial.recursiveCompleteDeletion;
    }

    function State(): Authorities
      reads this
    {
      Authorities(currentPageDeletionAuthority, currentPageCompleteDeletionAuthority,
        currentPageRecursiveDeletionAuthority, currentPageRecursiveCompleteDeletionAuthority)
    }

    /** The four `change…Authority` setters. */
    method ChangeAuthority(t: DeletionType, v: PageDeleteConfigValue)
      modifies this
      ensures State() == old(State()).Set(t, Some(v))
    {
      match t
      case Deletion => currentPageDeletionAuthority := Some(v);
      case CompleteDeletion => currentPageCompleteDeletionAuthority := Some(v);
      case RecursiveDeletion => currentPageRecursiveDeletionAuthority := Some(v);
      case RecursiveCompleteDeletion => currentPageRecursiveCompleteDeletionAuthority := Some(v);
    }

    /** `getRecursiveDeletionConfigState`: the paired recursive authority. */
    function RecursiveDeletionConfigState(t: DeletionType): (s: Authority)
      reads this
      ensures s == State().Get(RecursivePartner(t))
    {
      if IsTypeDeletion(t) then currentPageRecursiveDeletionAuthority
      else currentPageRecursiveCompleteDeletionAuthority
    }

    /**
     * `setDeletionConfigState`, called with the setter of `deletionType`
     * itself, as every dropdown on the page does.
     */
    method SetDeletionConfigState(newState: PageDeleteConfigValue, deletionType: DeletionType, validate: Validator)
      modifies this
      ensures State() == AfterSetDeletionConfig(old(State()), newState, deletionType, validate)
    {
      if IsRecursiveDeletion(deletionType) {
        ChangeAuthority(deletionType, newState);
        return;
      }
      var recursiveState := RecursiveDeletionConfigState(deletionType);
      var shouldForceUpdate := !validate(Some(newState), recursiveState);
      if shouldForceUpdate {
        ChangeAuthority(deletionType, newState);
        ChangeAuthority(RecursivePartner(deletionType), newState);
      } else {
        ChangeAuthority(deletionType, newState);
      }
    }
  }

  /** The entries of a dropdown: Inherit for a recursive type, Anyone for a general one, then AdminAndAuthor and AdminOnly. */
  function DropdownOptions(t: DeletionType): (options: seq<PageDeleteConfigValue>)
    ensures |options| == 3 && options[1] == AdminAndAuthor && options[2] == AdminOnly
    ensures Inherit in options <==> IsRecursiveDeletion(t)
    ensures Anyone in options <==> !IsRecursiveDeletion(t)
  {
    [if IsRecursiveDeletion(t) then Inherit else Anyone, AdminAndAuthor, AdminOnly]
  }

  /** The value a dropdown shows; an unset authority reads as Anyone. */
  function DisplayedValue(current: Authority): (shown: PageDeleteConfigValue)
    ensures current.Some? ==> shown == current.value
    ensures current.None? ==> shown == Anyone
  {
    if current.None? then Anyone else current.value
  }

  /** `isButtonDisabled` of the AdminAndAuthor entry, as the page computes it for each of its four dropdowns. */
  function IsAdminAndAuthorDisabled(t: DeletionType, a: Authorities, validate: Validator): bool
  {
    match t
    case Deletion => false
    case CompleteDeletion => false
    case RecursiveDeletion => !validate(a.deletion, Some(AdminAndAuthor))
    case RecursiveCompleteDeletion => !validate(a.completeDeletion, Some(AdminAndAuthor))
  }

  /**
   * A recursive dropdown's AdminAndAuthor entry is disabled exactly when
   * the validator rejects AdminAndAuthor under the paired general setting;
   * general dropdowns never disable it.
   */
  lemma AdminAndAuthorDisabledIffRejected(t: DeletionType, a: Authorities, validate: Validator)
    ensures IsAdminAndAuthorDisabled(t, a, validate) <==>
      IsRecursiveDeletion(t) && !validate(a.Get(GeneralPartner(t)), Some(AdminAndAuthor))
  {
  }
}
