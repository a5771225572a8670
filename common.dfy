/** Machine integer widths, Option/Result and the error values shared by the build queue model. */
module Common {

  /** Rust's `i32`, the column type of `queue.priority`. */
  type i32 = x: int | -0x8000_0000 <= x < 0x8000_0000

  /** Rust's `u16`, the type of the configured number of build attempts. */
  type u16 = x: int | 0 <= x < 0x1_0000

  /** Rust's `u32`, the type of `retry`'s attempt budget. */
  type u32 = x: int | 0 <= x < 0x1_0000_0000

  datatype Option<T> = None | Some(value: T)

  /** The failures the model distinguishes. Collaborators given as inputs may return any of them. */
  datatype Error =
    | ConfigTypeMismatch         // a config entry holds a value of another type than the one read
    | InvalidOid(text: string)   // a stored cursor that does not parse as an object id
    | IndexUnavailable           // `index.diff()` or `peek_changes()` failed
    | PriorityLookupFailed(name: string)
    | BookmarkWriteFailed        // `diff.set_last_seen_reference` failed
    | ToolchainUpdateFailed
    | PurgeCachesFailed
    | BuildFailed

  datatype Result<T> = Ok(value: T) | Err(error: Error)
}
