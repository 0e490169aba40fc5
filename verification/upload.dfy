/**
 * The upload filename check of app.py: `allowed_file` accepts a filename when it
 * contains a '.' and the lower-cased text after the last '.' is one of the
 * allow-listed image extensions.
 */
module Upload {

  /** The image extensions an upload may carry (`ALLOWED_EXTENSIONS`). */
  const AllowedExtensions: set<string> := {"png", "jpg", "jpeg", "gif"}

  /** Lower-cases one character; only the ASCII letters A-Z change. */
  function LowerChar(c: char): char
  {
    if 'A' <= c <= 'Z' then (c as int + ('a' as int - 'A' as int)) as char else c
  }

  /** `s.lower()`: every character lower-cased, nothing added or removed. */
  function Lower(s: string): (r: string)
    ensures |r| == |s|
    ensures forall i :: 0 <= i < |s| ==> r[i] == LowerChar(s[i])
  {
    if s == [] then [] else [LowerChar(s[0])] + Lower(s[1..])
  }

  /**
   * `filename.rsplit('.', 1)[1]`: the text after the last '.'. It is the
   * suffix of `filename` that is preceded by a '.' and holds no '.' itself.
   */
  function AfterLastDot(filename: string): (r: string)
    requires '.' in filename
    ensures |r| < |filename|
    ensures r == filename[|filename| - |r|..]
    ensures filename[|filename| - |r| - 1] == '.'
    ensures '.' !in r
  {
    var n := |filename|;
    if filename[n - 1] == '.' then []
    else
      assert '.' in filename[..n - 1] by {
        var i :| 0 <= i < n && filename[i] == '.';
        assert filename[..n - 1][i] == '.';
      }
      AfterLastDot(filename[..n - 1]) + [filename[n - 1]]
  }

  /** `allowed_file(filename)`. */
  predicate AllowedFile(filename: string)
    ensures AllowedFile(filename) ==> '.' in filename && 3 <= |AfterLastDot(filename)| <= 4
  {
    '.' in filename && Lower(AfterLastDot(filename)) in AllowedExtensions
  }

  /**
   * The extension rule stated without the split: a filename is accepted iff
   * some '.' in it is followed by dot-free text whose lower-cased form is an
   * allowed extension.
   */
  lemma AllowedFileIff(filename: string)
    ensures AllowedFile(filename) <==>
      exists i :: 0 <= i < |filename| && filename[i] == '.' && '.' !in filename[i + 1..]
                  && Lower(filename[i + 1..]) in AllowedExtensions
  {
    if AllowedFile(filename) {
      var i := |filename| - |AfterLastDot(filename)| - 1;
      assert filename[i + 1..] == AfterLastDot(filename);
    }
    if exists i :: 0 <= i < |filename| && filename[i] == '.' && '.' !in filename[i + 1..]
                   && Lower(filename[i + 1..]) in AllowedExtensions {
      var i :| 0 <= i < |filename| && filename[i] == '.' && '.' !in filename[i + 1..]
               && Lower(filename[i + 1..]) in AllowedExtensions;
      LastDotIsUnique(filename, i);
    }
  }

  /** Only one '.' of a filename is followed by dot-free text: the last one. */
  lemma LastDotIsUnique(filename: string, i: nat)
    requires i < |filename| && filename[i] == '.' && '.' !in filename[i + 1..]
    ensures filename[i + 1..] == AfterLastDot(filename)
  {
  }

  /** A text file is refused. */
  lemma RejectsTextFile()
    ensures !AllowedFile("photo.txt")
  {
    LastDotIsUnique("photo.txt", 5);
    assert "photo.txt"[6..] == "txt";
    assert Lower("txt") == "txt";
  }

  /** A name without any '.' is refused. */
  lemma RejectsNameWithoutExtension()
    ensures !AllowedFile("noext")
  {
    assert forall i :: 0 <= i < 5 ==> "noext"[i] != '.';
  }

  /** The extension is compared after lower-casing. */
  lemma AcceptsUpperCaseExtension()
    ensures AllowedFile("a.JPG")
  {
    LastDotIsUnique("a.JPG", 1);
    assert "a.JPG"[2..] == "JPG";
    assert Lower("JPG") == "jpg";
  }

  /** Only the text after the last '.' matters: an earlier extension is ignored. */
  lemma AcceptsLastExtensionOnly()
    ensures AllowedFile("x.tar.gif")
  {
    LastDotIsUnique("x.tar.gif", 5);
    assert "x.tar.gif"[6..] == "gif";
    assert Lower("gif") == "gif";
  }

  /** An image extension that is not the last one does not help. */
  lemma RejectsEarlierExtension()
    ensures !AllowedFile("x.gif.tar")
  {
    LastDotIsUnique("x.gif.tar", 5);
    assert "x.gif.tar"[6..] == "tar";
    assert Lower("tar") == "tar";
  }
}
