/**
 * The directory side of the synchronisation (internal/google/users.go): only
 * the shape of a Google Workspace user as the reconciler sees it.
 */
module Google {
  /** Go's int64: the type of the Telegram identifier on both sides. */
  newtype int64 = x: int | -0x8000_0000_0000_0000 <= x < 0x8000_0000_0000_0000

  /**
   * A directory user: the primary email and the Telegram identifier read from
   * the MessengerInfo custom schema (0 when the schema is absent or unreadable).
   */
  datatype GoogleUser = GoogleUser(primaryEmail: string, tgID: int64)
}
