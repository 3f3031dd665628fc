/** The parts of a webmention record that the plugin reads. */
module Records {

  datatype Option<+T> = None | Some(value: T)

  /** A promise after it has settled: the value it resolved to, or a rejection
      (a thrown TypeError in the places this model needs one). */
  datatype Settled<+T> = Resolved(value: T) | Rejected

  /** The `author` block of a record; both fields are optional in the feed. */
  datatype Author = Author(name: Option<string>, url: Option<string>)

  /** A webmention record, reduced to the fields the core consumes.
      `target` is the pathname of the record's `wm-target` URL and
      `property` its `wm-property` (like-of, repost-of, in-reply-to, ...). */
  datatype Mention = Mention(target: string, property: string, author: Option<Author>)

  /** JavaScript truthiness of an optional string field: present and non-empty. */
  predicate Truthy(s: Option<string>) {
    s.Some? && s.value != ""
  }
}
