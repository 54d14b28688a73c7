/**
 * The closed set of content categories, their names as the bot spells them,
 * and where each one's files and archived files live (autopost.py
 * `_get_folder_by_category`, utils_autopost.py `move_file_to_archive`).
 */
module Categories {
  import opened Wrappers
  import PyPath

  datatype Category =
    | EroAnime | EroReal | SingleMeme | StandartArt | StandartMeme
    | VideoMeme | VideoEro | VideoAuto

  function Name(c: Category): string
  {
    match c
    case EroAnime => "ero-anime"
    case EroReal => "ero-real"
    case SingleMeme => "single-meme"
    case StandartArt => "standart-art"
    case StandartMeme => "standart-meme"
    case VideoMeme => "video-meme"
    case VideoEro => "video-ero"
    case VideoAuto => "video-auto"
  }

  /** The category a name stands for, if it names one. */
  function FromName(s: string): (r: Option<Category>)
    ensures r.Some? ==> Name(r.value) == s
    ensures r.None? ==> forall c: Category :: Name(c) != s
  {
    if s == "ero-anime" then Some(EroAnime)
    else if s == "ero-real" then Some(EroReal)
    else if s == "single-meme" then Some(SingleMeme)
    else if s == "standart-art" then Some(StandartArt)
    else if s == "standart-meme" then Some(StandartMeme)
    else if s == "video-meme" then Some(VideoMeme)
    else if s == "video-ero" then Some(VideoEro)
    else if s == "video-auto" then Some(VideoAuto)
    else None
  }

  lemma NameRoundTrip(c: Category)
    ensures FromName(Name(c)) == Some(c)
  {
  }

  /** The configured directories: one content and one archive directory per category. */
  datatype Layout = Layout(content: Category -> string, archive: Category -> string)

  /** `_get_folder_by_category`: the content directory of a known name, `None` for any other string. */
  function FolderByCategory(layout: Layout, s: string): (r: Option<string>)
    ensures forall c: Category :: Name(c) == s ==> r == Some(layout.content(c))
    ensures (forall c: Category :: Name(c) != s) ==> r == None
  {
    match FromName(s)
    case Some(c) => Some(layout.content(c))
    case None => None
  }

  /** The archive directory `move_file_to_archive` picks for a category name. */
  function ArchiveDir(layout: Layout, s: string): (r: string)
    ensures forall c: Category :: Name(c) == s ==> r == layout.archive(c)
    ensures (forall c: Category :: Name(c) != s) ==> r == PyPath.Join("archive", s)
  {
    match FromName(s)
    case Some(c) => layout.archive(c)
    case None => PyPath.Join("archive", s)
  }

  /** Where `move_file_to_archive(filepath, category)` moves the file. */
  function ArchiveDestination(layout: Layout, filepath: string, category: string): (r: string)
    ensures PyPath.Basename(r) == PyPath.Basename(filepath)
    ensures forall c: Category :: Name(c) == category ==>
      r == PyPath.Join(layout.archive(c), PyPath.Basename(filepath))
  {
    var dir := ArchiveDir(layout, category);
    var base := PyPath.Basename(filepath);
    PyPath.BasenameOfJoin(dir, base);
    PyPath.Join(dir, base)
  }

  /** A name outside the eight goes under `archive/<name>/`. */
  lemma UnknownCategoryArchivePath(layout: Layout, filepath: string, category: string)
    requires forall c: Category :: Name(c) != category
    requires category != [] && category[0] != '/' && category[|category| - 1] != '/'
    ensures ArchiveDestination(layout, filepath, category)
         == "archive/" + category + "/" + PyPath.Basename(filepath)
  {
    var base := PyPath.Basename(filepath);
    var dir := ArchiveDir(layout, category);
    assert dir == PyPath.Join("archive", category);
    PyPath.JoinPlain("archive", category);
    assert dir[|dir| - 1] == category[|category| - 1];
    assert base != [] ==> base[0] != '/' by {
      if base != [] { assert base[0] in base; }
    }
    PyPath.JoinPlain(dir, base);
    assert ArchiveDestination(layout, filepath, category) == PyPath.Join(dir, base);
  }
}
