/**
  The failures the publishing tool can raise, and the Option and Result
  wrappers the rest of the model returns instead of raising.

  `DevCliError` and `DevApiError` (src/dev_cli/errors.py) carry no behaviour of
  their own; each message the source builds for them becomes one variant here,
  holding the values the message names. Python exceptions raised by the
  runtime or by libraries on the same paths are variants too, so that every
  way a run can end is visible in the model.
 */
module Errors {

  datatype Option<+T> = None | Some(value: T)
  {
    function GetOr(default: T): T
    {
      match this
      case Some(v) => v
      case None => default
    }
  }

  datatype Error =
    // DevCliError: the file cannot be opened or read (parser.py:33-34).
    | CouldNotOpen(path: string, cause: string)
    // DevCliError: the file holds more than the size cap (parser.py:31-32).
    | TooBig(path: string)
    // DevCliError: the publishing key is not in the front matter (parser.py:44-47).
    | KeyNotInFrontMatter(keyName: string)
    // DevCliError: no API key in the environment (__main__.py:78-82).
    | NoApiKey
    // DevApiError: creating an article whose front matter has no title (api.py:91-94).
    | NoTitle
    // TypeError raised by the JSON encoder while the create request is built (api.py:96-101).
    | TitleNotJsonEncodable
    // ValueError raised by `validate_key` (__main__.py:28-32).
    | InvalidKey(key: string)
    // AssertionError: unknown publication filter (api.py:42).
    | BadPublication(publication: string)
    // KeyError: an article dictionary lacks the field that is looked up (api.py:81, __main__.py:89).
    | MissingField(field: string)
    // httpx's `raise_for_status` on a create or update response (api.py:103, 113).
    | HttpStatusError(status: int)
    // UnicodeDecodeError while reading the file: a ValueError, not an IOError.
    | DecodeError(path: string)
    // Whatever the front-matter library raises on a malformed header.
    | MalformedFrontMatter

  datatype Result<+T> = Ok(value: T) | Err(error: Error)
}
