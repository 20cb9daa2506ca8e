/** The part of the operating system's file system the dictation code
    touches: whole-file reads, truncating writes, appends and renames over a
    map from path to content. */
module FileSystem {
  import opened Wrappers
  import opened Strings

  /** Opening `path` in append mode creates it when missing. */
  function Appended(files: map<string, string>, path: string, text: string): map<string, string> {
    files[path := (if path in files then files[path] else "") + text]
  }

  /** Two appends to one file are one append of both texts. */
  lemma AppendedTwice(files: map<string, string>, path: string, a: string, b: string)
    ensures Appended(Appended(files, path, a), path, b) == Appended(files, path, a + b)
  {
    var before := if path in files then files[path] else "";
    assert before + a + b == before + (a + b);
  }

  /** A successful `os.rename(src, dst)`: `dst` is replaced when it exists. */
  function Renamed(files: map<string, string>, src: string, dst: string): map<string, string>
    requires src in files
  {
    (files - {src})[dst := files[src]]
  }

  /** Rewriting a file and then renaming it leaves every other path as it
      was. */
  lemma RewrittenThenRenamed(files: map<string, string>, src: string, content: string, dst: string)
    ensures forall p :: p != src && p != dst ==>
              (p in Renamed(files[src := content], src, dst) <==> p in files)
              && (p in files ==> Renamed(files[src := content], src, dst)[p] == files[p])
  {
  }

  class Disk {
    var files: map<string, string>

    constructor (files: map<string, string>)
      ensures this.files == files
    {
      this.files := files;
    }

    /** `open(path, "r").read()` in text mode; a missing file raises.
        The text comes back with its line ends translated to `"\n"`, so it
        holds no carriage return. */
    method Read(path: string) returns (r: Result<string>)
      ensures path in files ==> r == Success(TranslateNewlines(files[path]))
      ensures path in files ==> '\r' !in r.value
      ensures path !in files ==> r.Failure?
    {
      if path in files {
        r := Success(TranslateNewlines(files[path]));
      } else {
        r := Failure("No such file or directory: " + path);
      }
    }

    /** `open(path, "w").write(content)`. */
    method Write(path: string, content: string)
      modifies this
      ensures files == old(files)[path := content]
    {
      files := files[path := content];
    }

    /** `open(path, "a").write(text)`. */
    method Append(path: string, text: string)
      modifies this
      ensures files == Appended(old(files), path, text)
    {
      files := Appended(files, path, text);
    }

    /** `os.rename(src, dst)`. Whether the operating system lets the rename
        happen (permissions, a directory in the way) is the input `permitted`;
        a missing source always fails. */
    method Rename(src: string, dst: string, permitted: bool) returns (ok: bool)
      modifies this
      ensures ok <==> permitted && src in old(files)
      ensures ok ==> files == Renamed(old(files), src, dst)
      ensures !ok ==> files == old(files)
    {
      ok := permitted && src in files;
      if ok {
        files := Renamed(files, src, dst);
      }
    }
  }
}
