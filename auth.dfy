/**
 * The permission oracle of internal/auth/auth.go: the signed-in user, the
 * thirty named permission flags, and the two GraphQL directives
 * (@isAuthenticated and @hasPermission) that decide whether a field
 * resolver runs or a null value is returned in its place.
 */
module Auth {
  import opened Common

  /** One constructor per boolean field of the Permissions struct. */
  datatype Perm =
    | AddEntries | AddUsers | AssignEntryGroups | AssignEvaluatorGroups
    | AssumeUserIdentities | ChangeUserPasswords | DeleteAllEvaluations
    | DeleteAllTasks | DeleteContests | DeleteEntries | DeleteErrors
    | DeleteKbContent | EditAllEvaluations | EditAllTasks | EditContests
    | EditEntries | EditKbContent | EditUserProfiles | JudgeEntries
    | ManageAnnouncements | ManageJudgingCriteria | ManageJudgingGroups
    | ManageWinners | PublishKbContent | ViewAdminStats | ViewAllEvaluations
    | ViewAllTasks | ViewAllUsers | ViewErrors | ViewJudgingSettings

  /** The flags that are true: a flag is set iff its name is in the set. */
  type Permissions = set<Perm>

  /** The part of the authenticated user the decisions read. */
  datatype User = User(id: int, kaid: string, isAdmin: bool, perms: Permissions,
                       isImpersonated: bool, originKaid: Option<string>)

  /** The GraphQL `NullType` argument of both directives. */
  datatype NullType =
    | NullEmptyString | NullNull | NullEmptyUserArray
    | NullEmptyErrorsArray | NullEmptyJudgingCriteriaArray

  /** The GraphQL `ObjectType` argument; only `User` objects can be owned. */
  datatype ObjectType = ObjectUser | ObjectOther

  /** The parent object a field belongs to, as far as ownership is concerned. */
  datatype Obj = UserObj(id: int) | OtherObj

  /** The value a directive returns in place of the field. */
  datatype NullValue = EmptyString | Nil | EmptyUsers | EmptyErrors | EmptyCriteria

  /**
   * A directive runs the resolver or returns a null value; Panicked is a nil
   * dereference, which the GraphQL server turns into an internal error.
   */
  datatype DirectiveOutcome = RunResolver | Denied(value: NullValue) | Panicked

  /** The GraphQL enum name of each permission, as `permission.String()` gives it. */
  function EnumName(p: Perm): string {
    match p
    case AddEntries => "ADD_ENTRIES"
    case AddUsers => "ADD_USERS"
    case AssignEntryGroups => "ASSIGN_ENTRY_GROUPS"
    case AssignEvaluatorGroups => "ASSIGN_EVALUATOR_GROUPS"
    case AssumeUserIdentities => "ASSUME_USER_IDENTITIES"
    case ChangeUserPasswords => "CHANGE_USER_PASSWORDS"
    case DeleteAllEvaluations => "DELETE_ALL_EVALUATIONS"
    case DeleteAllTasks => "DELETE_ALL_TASKS"
    case DeleteContests => "DELETE_CONTESTS"
    case DeleteEntries => "DELETE_ENTRIES"
    case DeleteErrors => "DELETE_ERRORS"
    case DeleteKbContent => "DELETE_KB_CONTENT"
    case EditAllEvaluations => "EDIT_ALL_EVALUATIONS"
    case EditAllTasks => "EDIT_ALL_TASKS"
    case EditContests => "EDIT_CONTESTS"
    case EditEntries => "EDIT_ENTRIES"
    case EditKbContent => "EDIT_KB_CONTENT"
    case EditUserProfiles => "EDIT_USER_PROFILES"
    case JudgeEntries => "JUDGE_ENTRIES"
    case ManageAnnouncements => "MANAGE_ANNOUNCEMENTS"
    case ManageJudgingCriteria => "MANAGE_JUDGING_CRITERIA"
    case ManageJudgingGroups => "MANAGE_JUDGING_GROUPS"
    case ManageWinners => "MANAGE_WINNERS"
    case PublishKbContent => "PUBLISH_KB_CONTENT"
    case ViewAdminStats => "VIEW_ADMIN_STATS"
    case ViewAllEvaluations => "VIEW_ALL_EVALUATIONS"
    case ViewAllTasks => "VIEW_ALL_TASKS"
    case ViewAllUsers => "VIEW_ALL_USERS"
    case ViewErrors => "VIEW_ERRORS"
    case ViewJudgingSettings => "VIEW_JUDGING_SETTINGS"
  }

  /**
   * The switch of getPermissionFromEnum: the permission an enum string names,
   * if any. The cases are grouped by the length of the name, which decides
   * nothing (a string of another length matches no case) but keeps each
   * comparison among names of equal length.
   */
  function PermOfEnum(s: string): Option<Perm> {
    match |s|
    case 9 => (
      match s
      case "ADD_USERS" => Some(AddUsers)
      case _ => None)
    case 11 => (
      match s
      case "ADD_ENTRIES" => Some(AddEntries)
      case "VIEW_ERRORS" => Some(ViewErrors)
      case _ => None)
    case 12 => (
      match s
      case "EDIT_ENTRIES" => Some(EditEntries)
      case _ => None)
    case 13 => (
      match s
      case "DELETE_ERRORS" => Some(DeleteErrors)
      case "EDIT_CONTESTS" => Some(EditContests)
      case "JUDGE_ENTRIES" => Some(JudgeEntries)
      case _ => None)
    case 14 => (
      match s
      case "DELETE_ENTRIES" => Some(DeleteEntries)
      case "EDIT_ALL_TASKS" => Some(EditAllTasks)
      case "MANAGE_WINNERS" => Some(ManageWinners)
      case "VIEW_ALL_TASKS" => Some(ViewAllTasks)
      case "VIEW_ALL_USERS" => Some(ViewAllUsers)
      case _ => None)
    case 15 => (
      match s
      case "DELETE_CONTESTS" => Some(DeleteContests)
      case "EDIT_KB_CONTENT" => Some(EditKbContent)
      case _ => None)
    case 16 => (
      match s
      case "DELETE_ALL_TASKS" => Some(DeleteAllTasks)
      case "VIEW_ADMIN_STATS" => Some(ViewAdminStats)
      case _ => None)
    case 17 => (
      match s
      case "DELETE_KB_CONTENT" => Some(DeleteKbContent)
      case _ => None)
    case 18 => (
      match s
      case "EDIT_USER_PROFILES" => Some(EditUserProfiles)
      case "PUBLISH_KB_CONTENT" => Some(PublishKbContent)
      case _ => None)
    case 19 => (
      match s
      case "ASSIGN_ENTRY_GROUPS" => Some(AssignEntryGroups)
      case _ => None)
    case 20 => (
      match s
      case "EDIT_ALL_EVALUATIONS" => Some(EditAllEvaluations)
      case "MANAGE_ANNOUNCEMENTS" => Some(ManageAnnouncements)
      case "VIEW_ALL_EVALUATIONS" => Some(ViewAllEvaluations)
      case _ => None)
    case 21 => (
      match s
      case "CHANGE_USER_PASSWORDS" => Some(ChangeUserPasswords)
      case "MANAGE_JUDGING_GROUPS" => Some(ManageJudgingGroups)
      case "VIEW_JUDGING_SETTINGS" => Some(ViewJudgingSettings)
      case _ => None)
    case 22 => (
      match s
      case "ASSUME_USER_IDENTITIES" => Some(AssumeUserIdentities)
      case "DELETE_ALL_EVALUATIONS" => Some(DeleteAllEvaluations)
      case _ => None)
    case 23 => (
      match s
      case "ASSIGN_EVALUATOR_GROUPS" => Some(AssignEvaluatorGroups)
      case "MANAGE_JUDGING_CRITERIA" => Some(ManageJudgingCriteria)
      case _ => None)
    case _ => None
  }

  /** getPermissionFromEnum: the flag an enum string names; false for a nil user or an unknown name. */
  function GetPermissionFromEnum(user: Option<User>, enumValue: string): (r: bool)
    ensures user.None? ==> !r
    ensures r ==> PermOfEnum(enumValue).Some?
  {
    if user.None? then false
    else match PermOfEnum(enumValue)
      case Some(p) => p in user.value.perms
      case None => false
  }

  /** Every enum name selects exactly the same-named flag. */
  lemma EnumNameSelectsFlag(p: Perm)
    ensures PermOfEnum(EnumName(p)) == Some(p)
  {
  }

  /** A string that is no permission's enum name selects nothing. */
  lemma UnknownEnumIsFalse(user: Option<User>, s: string)
    requires forall p: Perm :: EnumName(p) != s
    ensures !GetPermissionFromEnum(user, s)
  {
    if PermOfEnum(s).Some? {
      EnumNameOfSelected(s);
    }
  }

  /** The switch only answers for the exact enum names. */
  lemma EnumNameOfSelected(s: string)
    requires PermOfEnum(s).Some?
    ensures EnumName(PermOfEnum(s).value) == s
  {
    if |s| <= 13 { SelectedShortName(s); }
    else if |s| <= 16 { SelectedMediumName(s); }
    else if |s| <= 20 { SelectedLongName(s); }
    else if |s| == 21 { SelectedName21(s); }
    else if |s| == 22 { SelectedName22(s); }
    else { SelectedName23(s); }
  }

  // EnumNameOfSelected, one range of name lengths at a time.
  lemma SelectedShortName(s: string)
    requires PermOfEnum(s).Some? && |s| <= 13
    ensures EnumName(PermOfEnum(s).value) == s
  {
  }

  lemma SelectedMediumName(s: string)
    requires PermOfEnum(s).Some? && 13 < |s| <= 16
    ensures EnumName(PermOfEnum(s).value) == s
  {
  }

  lemma SelectedLongName(s: string)
    requires PermOfEnum(s).Some? && 16 < |s| <= 20
    ensures EnumName(PermOfEnum(s).value) == s
  {
  }

  lemma SelectedName21(s: string)
    requires PermOfEnum(s).Some? && |s| == 21
    ensures EnumName(PermOfEnum(s).value) == s
  {
  }

  lemma SelectedName22(s: string)
    requires PermOfEnum(s).Some? && |s| == 22
    ensures EnumName(PermOfEnum(s).value) == s
  {
  }

  lemma SelectedName23(s: string)
    requires PermOfEnum(s).Some? && 22 < |s|
    ensures EnumName(PermOfEnum(s).value) == s
  {
  }

  /** For a signed-in user, the directive's lookup is exactly the named flag. */
  lemma PermissionFromEnumIsFlag(u: User, p: Perm)
    ensures GetPermissionFromEnum(Some(u), EnumName(p)) == (p in u.perms)
  {
    EnumNameSelectsFlag(p);
  }

  /** getEmptyArray: the typed empty list for the three list kinds, nil otherwise. */
  function GetEmptyArray(nullType: NullType): (r: NullValue)
    ensures r != EmptyString
    ensures r == Nil <==> nullType in {NullEmptyString, NullNull}
  {
    match nullType
    case NullEmptyUserArray => EmptyUsers
    case NullEmptyErrorsArray => EmptyErrors
    case NullEmptyJudgingCriteriaArray => EmptyCriteria
    case _ => Nil
  }

  /** The value both directives return on denial. */
  function DeniedValue(nullType: NullType): (r: NullValue)
    ensures nullType == NullEmptyString <==> r == EmptyString
    ensures nullType == NullNull <==> r == Nil
    ensures nullType !in {NullEmptyString, NullNull} ==> r == GetEmptyArray(nullType)
  {
    if nullType == NullEmptyString then EmptyString
    else if nullType == NullNull then Nil
    else GetEmptyArray(nullType)
  }

  /** Distinct null types give distinct denial values. */
  lemma DeniedValueInjective(a: NullType, b: NullType)
    requires DeniedValue(a) == DeniedValue(b)
    ensures a == b
  {
  }

  /**
   * isOwner. For a User object it reads the caller's id, so with no signed-in
   * caller it dereferences nil: None stands for that panic. The requires is the
   * schema's binding: objType User is only attached to fields of User objects.
   */
  function IsOwner(user: Option<User>, obj: Obj, objType: ObjectType): (r: Option<bool>)
    requires objType == ObjectUser ==> obj.UserObj?
    ensures r.None? <==> objType == ObjectUser && user.None?
    ensures r == Some(true) <==> objType == ObjectUser && user.Some? && obj.id == user.value.id
  {
    match objType
    case ObjectUser => if user.None? then None else Some(obj.id == user.value.id)
    case ObjectOther => Some(false)
  }

  /** The @isAuthenticated directive. */
  function IsAuthenticated(user: Option<User>, nullType: NullType): (r: DirectiveOutcome)
    ensures r == RunResolver <==> user.Some?
    ensures user.None? ==> r == Denied(DeniedValue(nullType))
  {
    if user.Some? then RunResolver
    else Denied(DeniedValue(nullType))
  }

  /** The @hasPermission directive as written: the ownership test runs before any nil check. */
  function HasPermissionDirective(user: Option<User>, obj: Obj, permission: Perm,
                                  nullType: NullType, objType: Option<ObjectType>): (r: DirectiveOutcome)
    requires objType == Some(ObjectUser) ==> obj.UserObj?
  {
    if user.Some? && user.value.isAdmin then RunResolver
    else if objType.Some? && IsOwner(user, obj, objType.value).None? then Panicked
    else if objType.Some? && IsOwner(user, obj, objType.value) == Some(true) then RunResolver
    else if !GetPermissionFromEnum(user, EnumName(permission)) then Denied(DeniedValue(nullType))
    else RunResolver
  }

  /** An anonymous request for a field guarded by ownership of a User panics instead of being denied. */
  lemma AnonymousOwnerCheckPanics(obj: Obj, permission: Perm, nullType: NullType)
    requires obj.UserObj?
    ensures HasPermissionDirective(None, obj, permission, nullType, Some(ObjectUser)) == Panicked
  {
  }

  /** @hasPermission with the ownership test guarded by "signed in", as the rest of the directive is. */
  function HasPermissionDirectiveNilSafe(user: Option<User>, obj: Obj, permission: Perm,
                                         nullType: NullType, objType: Option<ObjectType>): (r: DirectiveOutcome)
    requires objType == Some(ObjectUser) ==> obj.UserObj?
    ensures r != Panicked
  {
    if user.Some? && user.value.isAdmin then RunResolver
    else if user.Some? && objType.Some? && IsOwner(user, obj, objType.value) == Some(true) then RunResolver
    else if !GetPermissionFromEnum(user, EnumName(permission)) then Denied(DeniedValue(nullType))
    else RunResolver
  }

  /**
   * The guarded directive runs the resolver iff the caller is signed in and is
   * admin, owns the User object, or holds the flag; otherwise it returns the
   * null value of nullType.
   */
  lemma HasPermissionDirectiveDecision(user: Option<User>, obj: Obj, permission: Perm,
                                       nullType: NullType, objType: Option<ObjectType>)
    requires objType == Some(ObjectUser) ==> obj.UserObj?
    ensures HasPermissionDirectiveNilSafe(user, obj, permission, nullType, objType) == RunResolver <==>
      (user.Some? && (user.value.isAdmin
                      || (objType == Some(ObjectUser) && obj.id == user.value.id)
                      || permission in user.value.perms))
    ensures HasPermissionDirectiveNilSafe(user, obj, permission, nullType, objType) != RunResolver ==>
      HasPermissionDirectiveNilSafe(user, obj, permission, nullType, objType) == Denied(DeniedValue(nullType))
  {
    if user.Some? {
      PermissionFromEnumIsFlag(user.value, permission);
    }
  }

  /** The two directives differ only on the anonymous ownership case. */
  lemma NilSafeAgreesOtherwise(user: Option<User>, obj: Obj, permission: Perm,
                               nullType: NullType, objType: Option<ObjectType>)
    requires objType == Some(ObjectUser) ==> obj.UserObj?
    requires user.Some? || objType != Some(ObjectUser)
    ensures HasPermissionDirective(user, obj, permission, nullType, objType)
         == HasPermissionDirectiveNilSafe(user, obj, permission, nullType, objType)
  {
  }

  /**
   * The two-argument HasPermission the resolvers call. Its body is not part of
   * this model; it is taken to be "signed in, and admin or holding the flag",
   * the rule the @hasPermission directive applies.
   */
  predicate HasPermission(user: Option<User>, p: Perm) {
    user.Some? && (user.value.isAdmin || p in user.value.perms)
  }
}
