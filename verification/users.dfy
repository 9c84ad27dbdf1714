/** The in-memory `users` array of node/router.js, shared by the profile and registration routes. */
module Users {
  /** An entry of `users`; the routes read only the name and the email. */
  datatype User = User(username: string, email: string)
}
