/**
 * The part of the Express response object signup uses: `res.status(code)`,
 * `res.cookie(name, value, options)` and `res.json(body)`.
 */
module Http {
  import opened Wrappers
  import opened Users
  import opened Session

  /** JSON bodies signup sends: `{ message }` or `{ success, user }`. */
  datatype Body = MessageBody(message: string) | UserBody(success: bool, user: User)

  class HttpResponse {
    var statusCode: int
    var cookies: seq<Cookie>   // the cookies set so far, in order
    var body: Option<Body>     // None until `json` is called

    /** A fresh response: status 200, nothing set, nothing sent. */
    constructor ()
      ensures statusCode == 200 && cookies == [] && body == None
    {
      statusCode := 200;
      cookies := [];
      body := None;
    }

    method Status(code: int)
      modifies this
      ensures statusCode == code && cookies == old(cookies) && body == old(body)
    {
      statusCode := code;
    }

    method SetCookie(c: Cookie)
      modifies this
      ensures cookies == old(cookies) + [c]
      ensures statusCode == old(statusCode) && body == old(body)
    {
      cookies := cookies + [c];
    }

    method Json(b: Body)
      modifies this
      ensures body == Some(b) && statusCode == old(statusCode) && cookies == old(cookies)
    {
      body := Some(b);
    }
  }
}
