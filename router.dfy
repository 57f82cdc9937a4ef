/** Route wiring: only the secret the authentication gate is built with. */
module Router {

  /** The secret passed to `AuthMiddleware` for every protected route. */
  const AuthSecret := "your_secret_key"
}
