/**
  The local side of publishing (src/dev_cli/parser.py): reading the Markdown
  file under a size cap, splitting off its front matter, and extracting the
  field that identifies the article remotely.

  Opening and decoding the file is the operating system's business, so the
  file arrives as a `File`: the text it decodes to, or the way it fails.
  The front-matter library is the `parse` parameter.
 */
module Parser {
  import opened Errors
  import opened Values

  /** What opening the path and decoding it as UTF-8 text gives. */
  datatype File =
    | Unreadable(cause: string)   // any IOError: missing, permissions, ...
    | Undecodable(prefix: string) // the text decoded before the first bytes that are not UTF-8
    | Text(chars: string)         // the decoded text, newlines translated

  /** What the front-matter library makes of a text: the header as a
      dictionary and the Markdown after it, or an exception. */
  datatype FrontMatter = Parsed(metadata: map<string, Value>, markdown: string) | Malformed

  /** The (approximate) key that spots an article that already exists remotely.
      The value is the raw front-matter value: nothing turns it into text. */
  datatype DevKey = DevKey(name: string, value: Value)

  /** A parsed article file. All four fields are set once, when it is read. */
  datatype DevParser = DevParser(
    filePath: string,
    fileContent: string,
    frontMatter: map<string, Value>,
    markdown: string)
  {
    /** The key named `keyName`, taken from the front matter as it is. */
    function GetKey(keyName: string): (r: Result<DevKey>)
      ensures r.Ok? <==> keyName in frontMatter
      ensures r.Ok? ==> r.value.name == keyName && r.value.value == frontMatter[keyName]
      ensures r.Err? ==> r.error == KeyNotInFrontMatter(keyName)
    {
      if keyName !in frontMatter then Err(KeyNotInFrontMatter(keyName))
      else Ok(DevKey(keyName, frontMatter[keyName]))
    }
  }

  function Min(a: int, b: int): int
  {
    if a <= b then a else b
  }

  /** `f.read(n)` on a text file whose position is `pos`: at most `n`
      characters, fewer only at the end of the file. */
  function Read(chars: string, pos: nat, n: nat): (chunk: string)
    requires pos <= |chars|
    ensures |chunk| == Min(n, |chars| - pos)
    ensures chunk == chars[pos..pos + |chunk|]
  {
    chars[pos..Min(pos + n, |chars|)]
  }

  /** What reading the file yields, stated without the reads: the whole file
      when it has at most `maxFileSize` characters, an error otherwise. */
  function Load(path: string, file: File, maxFileSize: nat, parse: string -> FrontMatter): (r: Result<DevParser>)
    ensures r.Ok? <==> file.Text? && |file.chars| <= maxFileSize && parse(file.chars).Parsed?
    ensures r.Ok? ==> r.value.filePath == path && r.value.fileContent == file.chars
                      && |r.value.fileContent| <= maxFileSize
                      && r.value.frontMatter == parse(file.chars).metadata
                      && r.value.markdown == parse(file.chars).markdown
    ensures file.Unreadable? ==> r == Err(CouldNotOpen(path, file.cause))
    ensures file.Undecodable? && |file.prefix| <= maxFileSize ==> r == Err(DecodeError(path))
    ensures file.Text? && |file.chars| > maxFileSize ==> r == Err(TooBig(path))
    ensures file.Undecodable? && |file.prefix| > maxFileSize ==> r == Err(TooBig(path))
    ensures file.Text? && |file.chars| <= maxFileSize && parse(file.chars).Malformed? ==> r == Err(MalformedFrontMatter)
  {
    match file
    case Unreadable(cause) => Err(CouldNotOpen(path, cause))
    case Undecodable(prefix) =>
      // the reads stop short of the bad bytes only when more than the cap decodes
      if |prefix| > maxFileSize then Err(TooBig(path)) else Err(DecodeError(path))
    case Text(chars) =>
      if |chars| > maxFileSize then Err(TooBig(path))
      else match parse(chars)
        case Malformed => Err(MalformedFrontMatter)
        case Parsed(metadata, markdown) => Ok(DevParser(path, chars, metadata, markdown))
  }

  /** `DevParser(file_path)`: read at most `maxFileSize` characters, then try
      to read one more; any extra character means the file is too big, so a
      file is never silently cut short. A read that has to decode the bytes
      that are not UTF-8 fails with a decode error. */
  method Open(path: string, file: File, maxFileSize: nat, parse: string -> FrontMatter) returns (r: Result<DevParser>)
    ensures r == Load(path, file, maxFileSize, parse)
  {
    match file {
      case Unreadable(cause) =>
        return Err(CouldNotOpen(path, cause));
      case Undecodable(prefix) =>
        var fileContent := Read(prefix, 0, maxFileSize);
        if |fileContent| < maxFileSize {
          // the first read reaches the bad bytes
          return Err(DecodeError(path));
        }
        var extra := Read(prefix, |fileContent|, 1);
        if extra == "" {
          // the read of one more character reaches the bad bytes
          return Err(DecodeError(path));
        }
        return Err(TooBig(path));
      case Text(chars) =>
        var fileContent := Read(chars, 0, maxFileSize);
        var extra := Read(chars, |fileContent|, 1);
        if extra != "" {
          return Err(TooBig(path));
        }
        assert fileContent == chars;
        match parse(fileContent) {
          case Malformed =>
            return Err(MalformedFrontMatter);
          case Parsed(frontMatter, markdown) =>
            return Ok(DevParser(path, fileContent, frontMatter, markdown));
        }
    }
  }
}
