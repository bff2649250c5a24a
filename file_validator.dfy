/** The file-name check made before a document is read. */
module FileValidator {
  import opened JavaStrings
  import opened Wrappers

  const HtmlExtension := ".html"
  const HtmExtension := ".htm"

  /** Why a path was refused. */
  datatype FileError = InvalidExtension

  /** A path is acceptable when it is not null and, lower-cased, ends with `.html` or `.htm`. */
  predicate HasValidExtension(filePath: Option<string>) {
    match filePath
    case None => false
    case Some(path) =>
      var lowerPath := Lower(path);
      EndsWith(lowerPath, HtmlExtension) || EndsWith(lowerPath, HtmExtension)
  }

  /** Passes on an acceptable path and fails with `InvalidExtension` on any other. */
  function Validate(filePath: Option<string>): (outcome: Outcome<FileError>)
    ensures outcome.Pass? <==> HasValidExtension(filePath)
    ensures outcome.Fail? ==> outcome.error == InvalidExtension
  {
    if !HasValidExtension(filePath) then Fail(InvalidExtension) else Pass
  }

  /** Any name followed by `.html` or `.htm` in any case is accepted. */
  lemma {:induction false} ExtensionAcceptedInAnyCase(base: string, extension: string)
    requires Lower(extension) == HtmlExtension || Lower(extension) == HtmExtension
    ensures HasValidExtension(Some(base + extension))
  {
    LowerAppend(base, extension);
    var lowerPath := Lower(base + extension);
    assert lowerPath[|lowerPath| - |extension|..] == Lower(extension);
  }

  /** Only the lower-cased path matters. */
  lemma ExtensionCheckIgnoresCase(path: string)
    ensures HasValidExtension(Some(path)) <==> HasValidExtension(Some(Lower(path)))
  {
    LowerIdempotent(path);
  }

  /** A null path, a path with no dot, and a path whose last letter is not `l` or `m` are
      refused. */
  lemma OtherPathsRefused(path: string)
    ensures !HasValidExtension(None)
    ensures '.' !in path ==> !HasValidExtension(Some(path))
    ensures path != [] && LowerChar(path[|path| - 1]) != 'l' && LowerChar(path[|path| - 1]) != 'm'
            ==> !HasValidExtension(Some(path))
  {
    var lowerPath := Lower(path);
    if EndsWith(lowerPath, HtmExtension) {
      assert lowerPath[|path| - 4] == '.';
      assert lowerPath[|path| - 1] == 'm';
    }
    if EndsWith(lowerPath, HtmlExtension) {
      assert lowerPath[|path| - 5] == '.';
      assert lowerPath[|path| - 1] == 'l';
    }
  }
}
