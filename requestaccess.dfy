/**
 * `pages/api/request-access`: records an access request by inserting the
 * posted email into the users table. A chain of early returns decides the
 * status and message; the insert is an abstract function of the email.
 */
module RequestAccess {
  import opened Wrappers

  /** What the insert resolves to: an error with its message, or the inserted rows. */
  datatype InsertResult<D> = InsertError(message: string) | Inserted(data: D)

  /** The JSON reply: a status, a message, and the inserted rows on success. */
  datatype Reply<D> = Reply(status: int, message: string, data: Option<D>)

  /** The reply, and the email that was inserted, if an insert was made. */
  datatype Handled<D> = Handled(reply: Reply<D>, insertedEmail: Option<string>)

  /** `!email` for a body field that is missing or a string: absent or empty is falsy. */
  predicate Falsy(email: Option<string>) {
    email.None? || email.value == ""
  }

  function Handle<D>(httpMethod: string, email: Option<string>, insert: string -> InsertResult<D>): (h: Handled<D>)
    ensures h.reply.status == 405 <==> httpMethod != "POST"
    ensures h.reply.status == 405 ==> h.reply == Reply(405, "Method not allowed", None)
    ensures h.insertedEmail.Some? <==> httpMethod == "POST" && !Falsy(email)
    ensures h.insertedEmail.Some? ==> h.insertedEmail == email
    ensures httpMethod == "POST" && Falsy(email) ==> h.reply == Reply(400, "Email is required", None)
    ensures h.insertedEmail.Some? ==>
      match insert(email.value)
      case InsertError(msg) => h.reply == Reply(400, msg, None)
      case Inserted(data) => h.reply == Reply(200, "Request recorded", Some(data))
    ensures h.reply.status == 200 <==> h.insertedEmail.Some? && insert(email.value).Inserted?
  {
    if httpMethod != "POST" then Handled(Reply(405, "Method not allowed", None), None)
    else if Falsy(email) then Handled(Reply(400, "Email is required", None), None)
    else match insert(email.value)
      case InsertError(msg) => Handled(Reply(400, msg, None), email)
      case Inserted(data) => Handled(Reply(200, "Request recorded", Some(data)), email)
  }

  /**
   * The method is checked first: a request that is not a POST gets the same
   * reply whatever its body and whatever the table would do.
   */
  lemma MethodCheckedFirst<D>(httpMethod: string, e1: Option<string>, e2: Option<string>,
                              i1: string -> InsertResult<D>, i2: string -> InsertResult<D>)
    requires httpMethod != "POST"
    ensures Handle(httpMethod, e1, i1) == Handle(httpMethod, e2, i2)
  {
  }

  /** Only a POST with a non-empty email reaches the table, and its reply is then the table's answer. */
  lemma InsertDecidesReply<D>(email: string, i1: string -> InsertResult<D>, i2: string -> InsertResult<D>)
    requires email != ""
    ensures i1(email) == i2(email) <==> Handle("POST", Some(email), i1) == Handle("POST", Some(email), i2)
  {
    var h1, h2 := Handle("POST", Some(email), i1), Handle("POST", Some(email), i2);
    if h1 == h2 {
      match i1(email)
      case InsertError(m1) => {
        match i2(email)
        case InsertError(m2) => assert h1.reply.message == m1 && h2.reply.message == m2;
        case Inserted(_) =>
      }
      case Inserted(d1) => {
        match i2(email)
        case InsertError(_) =>
        case Inserted(d2) => assert h1.reply.data == Some(d1) && h2.reply.data == Some(d2);
      }
    }
  }
}
