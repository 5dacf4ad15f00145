/** Option and Result values, and the kinds of Python exception the scraper raises or catches. */
module Wrappers {

  datatype Option<+T> = None | Some(value: T)

  /** The Python exception classes that matter to the control flow of the scraper. */
  datatype PyError =
    | KeyError            // dict lookup of a missing key (caught by the scrape loop)
    | IndexError          // list index out of range
    | AttributeError      // attribute access on None (a DOM query that found nothing)
    | TypeError           // e.g. parsing a page that could not be fetched (None)
    | ValueError          // failed unpacking, failed field validation, wrong parser type
    | UnboundLocalError   // a local variable read before it was ever assigned

  datatype Result<+T> = Ok(value: T) | Err(error: PyError)
}
