/**
 * Users, their roles and profiles (app/Models/User.php, app/Models/Siswa.php)
 * and the role gate in front of the role-restricted routes
 * (app/Http/Middleware/CheckRole.php).
 */
module Accounts {
  import opened Wrappers

  const RoleSiswa: string := "siswa"
  const RoleAdminStan: string := "admin_stan"

  /**
   * An authenticated user. `siswa` and `stan` are the ids of the user's
   * `hasOne` profile rows, when such a row exists.
   */
  datatype User = User(id: int, role: string, siswa: Option<int>, stan: Option<int>)

  predicate IsSiswa(u: User) {
    u.role == RoleSiswa
  }

  predicate IsAdminStan(u: User) {
    u.role == RoleAdminStan
  }

  /** The role predicates compare the whole role string, so no user has both roles. */
  lemma RolesExclusive(u: User)
    ensures !(IsSiswa(u) && IsAdminStan(u))
    ensures IsSiswa(u) <==> u.role == "siswa"
    ensures IsAdminStan(u) <==> u.role == "admin_stan"
  {
  }

  datatype Profile = SiswaProfile(siswaId: int) | StanProfile(stanId: int)

  /**
   * `User::profile`: the siswa profile for a siswa, otherwise the stan
   * profile, also for a role that is neither of the two.
   */
  function ProfileOf(u: User): (p: Option<Profile>)
    ensures p.Some? && p.value.SiswaProfile? ==> IsSiswa(u) && u.siswa == Some(p.value.siswaId)
    ensures p.Some? && p.value.StanProfile? ==> !IsSiswa(u) && u.stan == Some(p.value.stanId)
    ensures p.None? <==> (if IsSiswa(u) then u.siswa.None? else u.stan.None?)
  {
    if IsSiswa(u) then
      (if u.siswa.Some? then Some(SiswaProfile(u.siswa.value)) else None)
    else
      (if u.stan.Some? then Some(StanProfile(u.stan.value)) else None)
  }

  /** The middleware's verdict: refuse with a status code, or hand the request on to `next`. */
  datatype Gate<R> = Rejected(status: int) | Passed(request: R)

  /**
   * `CheckRole::handle`: an anonymous request, or a user whose role is not
   * exactly `role`, is refused with 403; otherwise the request reaches
   * `next` unchanged.
   */
  function CheckRole<R>(request: R, user: Option<User>, role: string): (g: Gate<R>)
    ensures g.Passed? <==> user.Some? && user.value.role == role
    ensures g.Passed? ==> g.request == request
    ensures g.Rejected? ==> g.status == 403
  {
    if user.None? || user.value.role != role then Rejected(403) else Passed(request)
  }

  /** The 'siswa' gate lets a user through exactly when `User::isSiswa` holds, likewise for 'admin_stan'. */
  lemma GateAgreesWithRolePredicates<R>(request: R, u: User)
    ensures CheckRole(request, Some(u), RoleSiswa).Passed? <==> IsSiswa(u)
    ensures CheckRole(request, Some(u), RoleAdminStan).Passed? <==> IsAdminStan(u)
    ensures CheckRole(request, None, RoleSiswa) == Rejected(403)
  {
  }

  datatype PhotoUrl = Stored(path: string) | Fallback(path: string)

  /** PHP truthiness of a nullable string column: NULL, '' and '0' are false. */
  predicate Truthy(s: Option<string>) {
    s.Some? && s.value != "" && s.value != "0"
  }

  /** `Siswa::getFotoUrlAttribute`, without the `asset()` host prefix. */
  function SiswaFotoUrl(foto: Option<string>): (u: PhotoUrl)
    ensures u.Fallback? <==> !Truthy(foto)
    ensures u.Fallback? ==> u.path == "images/default-profile.png"
    ensures u.Stored? ==> u.path == "storage/siswa/" + foto.value
  {
    if Truthy(foto) then Stored("storage/siswa/" + foto.value) else Fallback("images/default-profile.png")
  }
}
