/**
  The crate's private `Message` trait: `or_error` turns a `Result<T, E>` or an
  `Option<T>` into the crate's `Result<T>` (error type `String`), replacing
  whatever went wrong by a fixed message.
 */
module Message {
  import opened Wrappers

  /** `impl Message for Result<T, E>`: `self.map_err(|_| format!("{text}"))`. */
  function OrErrorResult<T, E>(r: Result<T, E>, text: string): (o: Result<T, string>)
    ensures o.Ok? <==> r.Ok?
    ensures r.Ok? ==> o.value == r.value
    ensures o.Err? ==> o.error == text
  {
    match r
    case Ok(v) => Ok(v)
    case Err(_) => Err(text)
  }

  /** `impl Message for Option<T>`: `self.ok_or(format!("{text}"))`. */
  function OrErrorOption<T>(o: Option<T>, text: string): (r: Result<T, string>)
    ensures r.Ok? <==> o.Some?
    ensures o.Some? ==> r.value == o.value
    ensures r.Err? ==> r.error == text
  {
    match o
    case Some(v) => Ok(v)
    case None => Err(text)
  }

  /** The original error is discarded: two failures map to the same result. */
  lemma OrErrorForgetsCause<T, E>(e1: E, e2: E, text: string)
    ensures OrErrorResult<T, E>(Err(e1), text) == OrErrorResult<T, E>(Err(e2), text) == Err(text)
  {
  }

  /** Both implementations agree: mapping a `Result` equals mapping its `.ok()`. */
  lemma OrErrorAgrees<T, E>(r: Result<T, E>, text: string)
    ensures OrErrorResult(r, text) == OrErrorOption(ToOption(r), text)
  {
  }

  /** Re-labelling an already labelled result keeps only the last message. */
  lemma OrErrorLastWins<T, E>(r: Result<T, E>, first: string, second: string)
    ensures OrErrorResult(OrErrorResult(r, first), second) == OrErrorResult(r, second)
  {
  }
}
