/** Value types shared by every page of the client: optional values, the
    reply of a backend request (network I/O is an input, never an effect),
    and the popup notifications the pages raise. */
module Common {

  datatype Option<+T> = None | Some(value: T)

  /** What a request's promise settles to: it resolves with an HTTP status and
      a `data` body that may be absent (`undefined`/`null`), or it rejects.
      With axios's default status check a resolved request has a 2xx status;
      an HTTP error status is a rejection. */
  datatype Reply<+T> = Answered(status: int, data: Option<T>) | Rejected

  /** `result.status === 200 && result.data`: a body that is an array or an
      object is always truthy in JavaScript, so only its absence fails. */
  predicate Accepted<T>(reply: Reply<T>)
  {
    reply.Answered? && reply.status == 200 && reply.data.Some?
  }

  datatype PopupLevel = Info | Warning | Error

  /** `addPopup(i18n.t(key), 5, level)`: the translation key and the level. */
  datatype Popup = Popup(key: string, level: PopupLevel)
}
