/** utils_autopost.py `is_valid_file`: which files may be sent to Telegram. */
module FileValidity {
  import opened PyStr
  import PyPath

  const ValidExtensions: seq<string> := [".jpg", ".jpeg", ".png", ".gif", ".mp4", ".webm", ".webp"]

  /**
   * `is_valid_file(path)`, with the two filesystem queries it makes given as
   * `present` (`os.path.exists`) and `size` (`os.path.getsize`).
   */
  function IsValidFile(path: string, present: bool, size: nat): (r: bool)
    ensures r ==> present && size > 0 && !EndsWith(path, ".gitkeep")
    ensures r ==> PyPath.Extension(path) != [] && Accepted(PyPath.Extension(path))
  {
    if EndsWith(path, ".gitkeep") then false
    else if !present then false
    else if size == 0 then false
    else HasValidExtension(path)
  }

  /** `os.path.splitext(path)[1].lower() in valid_extensions`. */
  predicate HasValidExtension(path: string)
  {
    Accepted(PyPath.Extension(path))
  }

  predicate Accepted(ext: string)
  {
    Lower(ext) in ValidExtensions
  }

  lemma UnlistedByLength(x: string)
    requires |x| != 4 && |x| != 5
    ensures x !in ValidExtensions
  {
  }

  /** A `.gitkeep` path never has an accepted extension, so the first test only short-cuts the last. */
  lemma GitkeepHasNoValidExtension(path: string)
    ensures EndsWith(path, ".gitkeep") ==> !HasValidExtension(path)
  {
    if EndsWith(path, ".gitkeep") {
      var n := |path| - 8;
      assert path[n..] == ".gitkeep";
      assert forall k | 0 <= k < 8 :: path[n + k] == ".gitkeep"[k];
      var dot := PyPath.LastIndexOf(path, '.');
      assert path[n] == '.';
      assert forall i | n < i < |path| :: path[i] != '.';
      assert dot == n;
      var e := PyPath.Extension(path);
      assert |e| == 0 || |e| == 8;
      UnlistedByLength(Lower(e));
    }
  }

  /** An existing, non-empty file is valid as soon as its extension is accepted. */
  lemma ValidByExtension(path: string, size: nat)
    requires HasValidExtension(path) && size > 0
    ensures IsValidFile(path, true, size)
  {
    GitkeepHasNoValidExtension(path);
  }

  /**
   * Conversely, a non-empty existing file named `stem + ext`, whose stem is not
   * all dots and whose extension lower-cases to an accepted one, is valid in
   * whatever directory it lies.
   */
  lemma MediaFileIsValid(dir: string, stem: string, ext: string, size: nat)
    requires '/' !in stem && exists i | 0 <= i < |stem| :: stem[i] != '.'
    requires |ext| >= 1 && ext[0] == '.' && '.' !in ext[1..] && '/' !in ext
    requires Accepted(ext)
    requires size > 0
    ensures IsValidFile(PyPath.Join(dir, stem + ext), true, size)
  {
    var path := PyPath.Join(dir, stem + ext);
    PyPath.ExtensionOfJoin(dir, stem, ext);
    ValidByExtension(path, size);
  }
}
