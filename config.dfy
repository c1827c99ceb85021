/**
 * Deployment configuration (backend/app/config.py). The environment variables
 * are not read: the model fixes their documented defaults.
 */
module Config {

  /** `JWT_SECRET`, the HMAC key every access token is signed with. */
  const JWT_SECRET: string := "supersecret_change_this"

  /** `ACCESS_TOKEN_EXPIRE_MINUTES`, the default token lifetime. */
  const ACCESS_TOKEN_EXPIRE_MINUTES: nat := 60
}
