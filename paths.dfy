/**
 * The path and URL helpers the handler uses: `Path.GetDirectoryName`,
 * `Path.GetFileName`, `Path.GetFileNameWithoutExtension` and `Path.Combine` on
 * Windows file-system paths, the handler's own `GetImagePath`, and the
 * sibling-URL construction of its fallback branch.
 */
module Paths {
  import opened Wrappers
  import Text

  /** `Path.DirectorySeparatorChar` and `Path.AltDirectorySeparatorChar`. */
  predicate IsDirectorySeparator(c: char) {
    c == '\\' || c == '/'
  }

  /** The characters that end a directory or volume part: separators and `Path.VolumeSeparatorChar`. */
  predicate IsNameSeparator(c: char) {
    IsDirectorySeparator(c) || c == ':'
  }

  /** The separator `Path.Combine` inserts. */
  const DirectorySeparator: char := '\\'

  /** The last position holding a directory separator, or -1. */
  function LastDirectorySeparator(s: string): (r: int)
    ensures -1 <= r < |s|
    ensures r >= 0 ==> IsDirectorySeparator(s[r])
    ensures forall j :: r < j < |s| ==> !IsDirectorySeparator(s[j])
  {
    if s == [] then -1
    else if IsDirectorySeparator(s[|s| - 1]) then |s| - 1
    else LastDirectorySeparator(s[..|s| - 1])
  }

  /** The last position holding a directory or volume separator, or -1. */
  function LastNameSeparator(s: string): (r: int)
    ensures -1 <= r < |s|
    ensures r >= 0 ==> IsNameSeparator(s[r])
    ensures forall j :: r < j < |s| ==> !IsNameSeparator(s[j])
  {
    if s == [] then -1
    else if IsNameSeparator(s[|s| - 1]) then |s| - 1
    else LastNameSeparator(s[..|s| - 1])
  }

  /** The length of a drive root (`C:\`) or a rooted path's leading separator. */
  function RootLength(p: string): nat {
    if |p| >= 3 && p[1] == ':' && IsDirectorySeparator(p[2]) then 3
    else if |p| >= 1 && IsDirectorySeparator(p[0]) then 1
    else 0
  }

  /** `Path.GetDirectoryName`: everything before the last directory separator;
      a root keeps its separator; a path without a separator has an empty directory. */
  function DirectoryName(p: string): string {
    var k := LastDirectorySeparator(p);
    if k < 0 then ""
    else if k + 1 == RootLength(p) then p[..k + 1]
    else p[..k]
  }

  /** `Path.GetFileName`: the longest suffix without a directory or volume separator. */
  function FileName(p: string): string {
    p[LastNameSeparator(p) + 1..]
  }

  /** `Path.GetFileNameWithoutExtension`: the file name up to its last '.', if it has one. */
  function FileNameWithoutExtension(p: string): string {
    var name := FileName(p);
    var dot := Text.LastIndexOf(name, '.');
    if dot < 0 then name else name[..dot]
  }

  /** The file name is the suffix of the path after its last directory or volume separator. */
  lemma FileNameIsLastSegment(p: string)
    ensures var r := FileName(p);
      && |r| <= |p| && p[|p| - |r|..] == r
      && NoNameSeparator(r)
      && (|r| < |p| ==> IsNameSeparator(p[|p| - |r| - 1]))
  {
  }

  /** The name without extension is the file name up to its last '.', or all of it if it has none. */
  lemma FileNameWithoutExtensionIsStem(p: string)
    ensures var f, r := FileName(p), FileNameWithoutExtension(p);
      && |r| <= |f| && f[..|r|] == r
      && (|r| == |f| ==> '.' !in f)
      && (|r| < |f| ==> f[|r|] == '.' && '.' !in f[|r| + 1..])
  {
  }

  /** `Path.Combine(dir, name)` for a `name` that is not rooted. */
  function Combine(dir: string, name: string): string {
    if dir == "" then name
    else if IsNameSeparator(dir[|dir| - 1]) then dir + name
    else dir + [DirectorySeparator] + name
  }

  /** RequestHandler.GetImagePath: the sibling of `path` with the same name and extension `extension`. */
  function GetImagePath(path: string, extension: string): string {
    Combine(DirectoryName(path), FileNameWithoutExtension(path) + "." + extension)
  }

  /** No character of `s` is a directory or volume separator. */
  predicate NoNameSeparator(s: string) {
    forall i :: 0 <= i < |s| ==> !IsNameSeparator(s[i])
  }

  /** The file name of `prefix + name` is `name` when `prefix` ends at a separator. */
  lemma FileNameAfterSeparator(prefix: string, name: string)
    requires prefix == "" || IsNameSeparator(prefix[|prefix| - 1])
    requires NoNameSeparator(name)
    ensures FileName(prefix + name) == name
  {
    var s := prefix + name;
    var k := LastNameSeparator(s);
    if prefix != "" {
      assert s[|prefix| - 1] == prefix[|prefix| - 1];
      if k < |prefix| - 1 { assert false; }
    }
    if k >= |prefix| { assert false; }
    assert s[k + 1..] == name;
  }

  /** The file name without extension of `stem + "." + extension`, for an extension without '.'. */
  lemma StemOfDottedName(p: string, stem: string, extension: string)
    requires FileName(p) == stem + "." + extension
    requires '.' !in extension
    ensures FileNameWithoutExtension(p) == stem
  {
    var name := FileName(p);
    var dot := Text.LastIndexOf(name, '.');
    assert name[|stem|] == '.';
    assert name[..|stem|] == stem;
  }

  /** The stem of a file name holds no separator. */
  lemma StemHasNoSeparator(path: string)
    ensures NoNameSeparator(FileNameWithoutExtension(path))
  {
    var f := FileName(path);
    var stem := FileNameWithoutExtension(path);
    FileNameIsLastSegment(path);
    FileNameWithoutExtensionIsStem(path);
    forall i | 0 <= i < |stem| ensures !IsNameSeparator(stem[i]) {
      assert stem[i] == f[i];
    }
  }

  /** Joining two separator-free names with '.' gives a separator-free name. */
  lemma DottedNameHasNoSeparator(stem: string, extension: string)
    requires NoNameSeparator(stem) && NoNameSeparator(extension)
    ensures NoNameSeparator(stem + "." + extension)
  {
    var name := stem + "." + extension;
    forall i | 0 <= i < |name| ensures !IsNameSeparator(name[i]) {
      if i < |stem| { assert name[i] == stem[i]; }
      else if i > |stem| { assert name[i] == extension[i - |stem| - 1]; }
    }
  }

  /** Combine puts a separator-free name last. */
  lemma FileNameOfCombine(dir: string, name: string)
    requires NoNameSeparator(name)
    ensures FileName(Combine(dir, name)) == name
  {
    if dir == "" {
      FileNameAfterSeparator("", name);
      assert "" + name == name;
    } else if IsNameSeparator(dir[|dir| - 1]) {
      FileNameAfterSeparator(dir, name);
    } else {
      FileNameAfterSeparator(dir + [DirectorySeparator], name);
      assert dir + [DirectorySeparator] + name == (dir + [DirectorySeparator]) + name;
    }
  }

  /** GetImagePath keeps the file name's stem and replaces its extension: the
      candidate's file name is `stem + "." + extension` and its stem is the
      original's. */
  lemma GetImagePathName(path: string, extension: string)
    requires NoNameSeparator(extension) && '.' !in extension
    ensures FileName(GetImagePath(path, extension)) == FileNameWithoutExtension(path) + "." + extension
    ensures FileNameWithoutExtension(GetImagePath(path, extension)) == FileNameWithoutExtension(path)
  {
    var stem := FileNameWithoutExtension(path);
    var name := stem + "." + extension;
    StemHasNoSeparator(path);
    DottedNameHasNoSeparator(stem, extension);
    FileNameOfCombine(DirectoryName(path), name);
    StemOfDottedName(GetImagePath(path, extension), stem, extension);
  }

  /** GetImagePath keeps the directory of a path whose directory does not end in a separator. */
  lemma GetImagePathDirectory(path: string, extension: string)
    requires NoNameSeparator(extension) && '.' !in extension
    requires DirectoryName(path) != "" && !IsNameSeparator(DirectoryName(path)[|DirectoryName(path)| - 1])
    ensures GetImagePath(path, extension) == DirectoryName(path) + [DirectorySeparator] + FileName(GetImagePath(path, extension))
    ensures DirectoryName(GetImagePath(path, extension)) == DirectoryName(path)
  {
    var dir := DirectoryName(path);
    var target := GetImagePath(path, extension);
    GetImagePathName(path, extension);
    var name := FileName(target);
    assert target == dir + [DirectorySeparator] + name;
    var k := LastDirectorySeparator(target);
    assert target[|dir|] == DirectorySeparator;
    if k > |dir| { assert false; }
    // A root directory ends in a separator, so `dir` is not one.
    if k + 1 == RootLength(target) { assert false; }
    assert target[..k] == dir;
  }

  /** GetImagePath keeps the directory of a path in a root directory (`C:\a.webp`,
      `\a.webp`): the candidate is the root followed by its name. */
  lemma GetImagePathDirectoryAtRoot(path: string, extension: string)
    requires NoNameSeparator(extension) && '.' !in extension
    requires LastDirectorySeparator(path) >= 0 && LastDirectorySeparator(path) + 1 == RootLength(path)
    ensures GetImagePath(path, extension) == DirectoryName(path) + FileName(GetImagePath(path, extension))
    ensures DirectoryName(GetImagePath(path, extension)) == DirectoryName(path)
  {
    var dir := DirectoryName(path);
    var k := LastDirectorySeparator(path);
    var target := GetImagePath(path, extension);
    GetImagePathName(path, extension);
    var name := FileName(target);
    StemHasNoSeparator(path);
    DottedNameHasNoSeparator(FileNameWithoutExtension(path), extension);
    assert dir == path[..k + 1];
    assert target == dir + name;
    assert target[..k + 1] == dir;
    assert RootLength(target) == k + 1 by {
      if |name| > 0 { assert target[k + 1] == name[0] && !IsNameSeparator(name[0]); }
    }
    assert LastDirectorySeparator(target) == k by {
      forall j | k < j < |target| ensures !IsDirectorySeparator(target[j]) {
        assert target[j] == name[j - k - 1];
      }
    }
  }

  /** GetImagePath of a bare file name (`a.webp`) is a bare file name (`a.png`). */
  lemma GetImagePathWithoutDirectory(path: string, extension: string)
    requires NoNameSeparator(extension) && '.' !in extension
    requires DirectoryName(path) == ""
    ensures GetImagePath(path, extension) == FileNameWithoutExtension(path) + "." + extension
    ensures DirectoryName(GetImagePath(path, extension)) == ""
  {
    var name := FileNameWithoutExtension(path) + "." + extension;
    StemHasNoSeparator(path);
    DottedNameHasNoSeparator(FileNameWithoutExtension(path), extension);
    assert GetImagePath(path, extension) == name;
    assert LastDirectorySeparator(name) == -1 by {
      forall j | 0 <= j < |name| ensures !IsDirectorySeparator(name[j]) {
        assert !IsNameSeparator(name[j]);
      }
    }
  }

  /** The URL of the request's directory: `AbsoluteUri` up to its last '/'. */
  function UrlDirectory(absoluteUri: string): Option<string> {
    var slash := Text.LastIndexOf(absoluteUri, '/');
    if slash < 0 then None else Some(absoluteUri[..slash])
  }

  /** The redirect URL for a sibling file: the request's directory, '/', the file name.
      None where the source's `Substring(0, LastIndexOf("/"))` would throw. */
  function StaticUrl(absoluteUri: string, fileName: string): (r: Option<string>)
    ensures r.Some? <==> '/' in absoluteUri
  {
    match UrlDirectory(absoluteUri)
    case None => None
    case Some(dir) => Some(dir + "/" + fileName)
  }

  /** A sibling URL lies in the request's directory and ends in the file name. */
  lemma StaticUrlIsSibling(absoluteUri: string, fileName: string)
    requires '/' in absoluteUri && '/' !in fileName
    ensures StaticUrl(absoluteUri, fileName).Some?
    ensures UrlDirectory(StaticUrl(absoluteUri, fileName).value) == UrlDirectory(absoluteUri)
    ensures var url := StaticUrl(absoluteUri, fileName).value;
            url[Text.LastIndexOf(url, '/') + 1..] == fileName
  {
    var dir := UrlDirectory(absoluteUri).value;
    var url := dir + "/" + fileName;
    var k := Text.LastIndexOf(url, '/');
    assert url[|dir|] == '/';
    assert url[..k] == dir;
    assert url[k + 1..] == fileName;
  }
}
