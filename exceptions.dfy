/**
 * The errors a scrape step can raise (git_pull/exceptions.py), plus the
 * Python runtime errors the scraper lets escape when a page region is
 * missing or holds text that `int()` rejects.
 */
module Exceptions {

  datatype ScrapeError =
      /** The host answered with its anti-scraping banner for this URL. */
    | DeniedRequest(url: string)
      /** The profile page of this user lacks the yearly-contributions region. */
    | InvalidUsername(username: string)
      /** The HTTP request itself failed (connection error); the URL is not in the web. */
    | Unreachable(url: string)
      /** A TypeError/AttributeError/KeyError/IndexError/ValueError raised while reading a page. */
    | MalformedPage

  datatype Result<+T> = Ok(value: T) | Err(error: ScrapeError) {

    predicate IsFailure() {
      Err?
    }

    function PropagateFailure<U>(): Result<U>
      requires Err?
    {
      Err(error)
    }

    function Extract(): T
      requires Ok?
    {
      value
    }
  }
}
