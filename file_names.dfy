/**
 * The extension helpers of Apache Commons IO's `FilenameUtils` that `withExtension` uses. The
 * extension is the text after the last '.', unless a '/' or '\' comes after that dot; the
 * comparison is exact.
 */
module FileNames {
  import opened JavaText

  const EXTENSION_SEPARATOR := '.'

  /** `indexOfLastSeparator`: the last Unix or Windows separator, or -1. */
  function IndexOfLastSeparator(name: string): (r: int)
    ensures -1 <= r < |name|
    ensures r >= 0 ==> name[r] == '/' || name[r] == '\\'
    ensures forall i :: r < i < |name| ==> name[i] != '/' && name[i] != '\\'
  {
    var unix, windows := LastIndexOf(name, '/'), LastIndexOf(name, '\\');
    if unix > windows then unix else windows
  }

  /** `indexOfExtension`: the position of the extension's dot, or -1 when there is none. */
  function IndexOfExtension(name: string): (r: int)
    ensures -1 <= r < |name|
    ensures r >= 0 ==> name[r] == EXTENSION_SEPARATOR && r > IndexOfLastSeparator(name)
    ensures r >= 0 ==> forall i :: r < i < |name| ==> name[i] != EXTENSION_SEPARATOR
    ensures r < 0 ==> forall i :: IndexOfLastSeparator(name) < i < |name| ==> name[i] != EXTENSION_SEPARATOR
  {
    var dot := LastIndexOf(name, EXTENSION_SEPARATOR);
    if IndexOfLastSeparator(name) > dot then -1 else dot
  }

  /** `getExtension`: the text after the extension's dot, or "". */
  function GetExtension(name: string): string {
    var k := IndexOfExtension(name);
    if k < 0 then "" else name[k + 1..]
  }

  /** `removeExtension`: the text before the extension's dot, or the whole name. */
  function RemoveExtension(name: string): string {
    var k := IndexOfExtension(name);
    if k < 0 then name else name[..k]
  }

  /** `isExtension(name, ext)`: an empty extension means the name has none; otherwise exact equality. */
  predicate IsExtension(name: string, extension: string) {
    if extension == "" then IndexOfExtension(name) < 0 else GetExtension(name) == extension
  }

  /** An extension that cannot be mistaken for part of a path or of another extension. */
  predicate PlainExtension(extension: string) {
    EXTENSION_SEPARATOR !in extension && '/' !in extension && '\\' !in extension
  }

  /** Splitting at the extension's dot and joining again gives the name back. */
  lemma SplitExtension(name: string)
    ensures IndexOfExtension(name) >= 0 ==>
      RemoveExtension(name) + [EXTENSION_SEPARATOR] + GetExtension(name) == name
    ensures IndexOfExtension(name) < 0 ==> RemoveExtension(name) == name && GetExtension(name) == ""
  {
    var k := IndexOfExtension(name);
    if k >= 0 {
      assert name == name[..k] + [name[k]] + name[k + 1..];
    }
  }

  /** Appending a dot and a plain extension to any base makes that the extension, and the base what remains. */
  lemma {:induction false} AppendExtension(base: string, extension: string)
    requires PlainExtension(extension)
    ensures var name := base + [EXTENSION_SEPARATOR] + extension;
      IndexOfExtension(name) == |base| && GetExtension(name) == extension && RemoveExtension(name) == base
  {
    var name := base + [EXTENSION_SEPARATOR] + extension;
    assert name[|base|] == EXTENSION_SEPARATOR;
    forall i | |base| < i < |name| ensures name[i] != EXTENSION_SEPARATOR && name[i] != '/' && name[i] != '\\' {
      assert name[i] == extension[i - |base| - 1];
    }
    var dot := LastIndexOf(name, EXTENSION_SEPARATOR);
    assert dot == |base|;
    assert IndexOfLastSeparator(name) < |base|;
    assert name[..|base|] == base;
    assert name[|base| + 1..] == extension;
  }
}
