/**
 * The logged-in user as the core reads it. The authentication context that produces it
 * (src/contexts/AuthContext) is not part of this model: only the fields the dashboards and the
 * route guard look at are kept.
 */
module Auth {

  datatype Role = ContractorRole | AdminRole

  datatype User = User(id: string, username: string, role: Role)
}
