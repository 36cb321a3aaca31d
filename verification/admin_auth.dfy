/** The single shared admin secret that guards every admin endpoint. */
module AdminAuth {
  import opened Outcomes

  const AdminApiKey: string := "change-me-admin-key"

  /** The `X-Admin-Key` header (absent = `None`) carries exactly the secret. */
  predicate IsAdmin(key: Option<string>) {
    key == Some(AdminApiKey)
  }
}
