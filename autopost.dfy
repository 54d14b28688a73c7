/**
 * The two publication callbacks of autopost.py, `autopost_10_pics_callback`
 * and `autopost_4_videos_callback`, over a store of category folders, their
 * archive and the anecdote file.
 *
 * A callback takes an anecdote out of the file first, then picks one file for
 * every slot of its post (a slot written `a/b` in the source falls back to
 * `b` when `a` has no file), sends the post, and moves the picked files to
 * their archive only once both the media group and the anecdote are sent.
 * `Post` states the whole protocol as a function of the store before the
 * call; the two methods are proved to do what it says, and the lemmas after
 * it state what that means.
 */
module Autopost {
  import opened Wrappers
  import opened Categories
  import FileValidity
  import Anecdotes
  import PyPath

  /** A directory entry: its name, whether it is a regular file, and its size in bytes. */
  datatype FileEntry = FileEntry(name: string, isFile: bool, size: nat)

  /** The folders of the categories whose directory exists. */
  type Folders = map<Category, seq<FileEntry>>

  /** `os.path.join(folder, name)` for a file of category `c`'s folder. */
  function PathIn(layout: Layout, c: Category, name: string): string
  {
    PyPath.Join(layout.content(c), name)
  }

  /** No two entries of a directory share a name. */
  predicate UniqueNames(es: seq<FileEntry>)
  {
    es == [] || ((forall e | e in es[1..] :: e.name != es[0].name) && UniqueNames(es[1..]))
  }

  predicate AllUnique(folders: Folders)
  {
    forall c | c in folders :: UniqueNames(folders[c])
  }

  // ---------------------------------------------------------------- choosing a file

  /** A regular file that `is_valid_file` accepts. */
  predicate Usable(layout: Layout, c: Category, e: FileEntry)
  {
    e.isFile && FileValidity.IsValidFile(PathIn(layout, c, e.name), true, e.size)
  }

  /** Which entries of a listing are usable, entry by entry. */
  function UsableFlags(layout: Layout, c: Category, es: seq<FileEntry>): (r: seq<bool>)
    ensures |r| == |es| && forall i | 0 <= i < |es| :: r[i] == Usable(layout, c, es[i])
  {
    seq(|es|, i requires 0 <= i < |es| => Usable(layout, c, es[i]))
  }

  /** The names of the flagged entries, in listing order. */
  function Flagged(es: seq<FileEntry>, flags: seq<bool>): (r: seq<string>)
    requires |flags| == |es|
    ensures |r| <= |es|
  {
    if es == [] then []
    else (if flags[0] then [es[0].name] else []) + Flagged(es[1..], flags[1..])
  }

  /** The names `get_random_file_from_folder` chooses among, in listing order. */
  function ValidNames(layout: Layout, c: Category, es: seq<FileEntry>): (r: seq<string>)
    ensures |r| <= |es|
  {
    Flagged(es, UsableFlags(layout, c, es))
  }

  /** A name is offered exactly when some usable entry carries it. */
  lemma {:induction false} ValidNamesMembers(layout: Layout, c: Category, es: seq<FileEntry>, n: string)
    ensures n in ValidNames(layout, c, es) <==> exists e | e in es :: e.name == n && Usable(layout, c, e)
  {
    var flags := UsableFlags(layout, c, es);
    if n in ValidNames(layout, c, es) {
      var i := FlaggedFrom(es, flags, n);
      assert es[i] in es;
    }
    if exists e | e in es :: e.name == n && Usable(layout, c, e) {
      var e :| e in es && e.name == n && Usable(layout, c, e);
      var i :| 0 <= i < |es| && es[i] == e;
      FlaggedOffers(es, flags, i);
    }
  }

  lemma {:induction false} FlaggedFrom(es: seq<FileEntry>, flags: seq<bool>, n: string) returns (i: nat)
    requires |flags| == |es| && n in Flagged(es, flags)
    ensures i < |es| && es[i].name == n && flags[i]
  {
    var rest := Flagged(es[1..], flags[1..]);
    if flags[0] && n == es[0].name {
      i := 0;
    } else {
      assert Flagged(es, flags) == (if flags[0] then [es[0].name] else []) + rest;
      assert n in rest;
      var k := FlaggedFrom(es[1..], flags[1..], n);
      i := k + 1;
    }
  }

  lemma {:induction false} FlaggedOffers(es: seq<FileEntry>, flags: seq<bool>, i: nat)
    requires |flags| == |es| && i < |es| && flags[i]
    ensures es[i].name in Flagged(es, flags)
  {
    var head := if flags[0] then [es[0].name] else [];
    assert Flagged(es, flags) == head + Flagged(es[1..], flags[1..]);
    if i > 0 {
      FlaggedOffers(es[1..], flags[1..], i - 1);
    }
  }

  /** Category `c` has nothing to offer: no directory, or no valid file in it. */
  predicate NoFile(layout: Layout, folders: Folders, c: Category)
  {
    c !in folders || ValidNames(layout, c, folders[c]) == []
  }

  /** The file is one of the valid files of its category's folder. */
  predicate Available(layout: Layout, folders: Folders, p: Pick)
  {
    p.category in folders && p.name in ValidNames(layout, p.category, folders[p.category])
  }

  /**
   * `get_random_file_from_folder(folder of c)`: the name of one of its valid
   * files, `pick` standing for `random.choice`, or `None`.
   */
  function RandomFile(layout: Layout, folders: Folders, c: Category, pick: nat): (r: Option<string>)
    ensures r.None? <==> NoFile(layout, folders, c)
    ensures r.Some? ==> Available(layout, folders, Pick(c, r.value))
  {
    if c !in folders then None
    else
      var valid := ValidNames(layout, c, folders[c]);
      if valid == [] then None else Some(valid[pick % |valid|])
  }

  /** The first entry called `name`. */
  function Lookup(es: seq<FileEntry>, name: string): (r: Option<FileEntry>)
    ensures r.Some? ==> r.value.name == name
  {
    if es == [] then None
    else if es[0].name == name then Some(es[0])
    else Lookup(es[1..], name)
  }

  /** The entry found is in the directory, and none is found exactly when no entry has the name. */
  lemma {:induction false} LookupFacts(es: seq<FileEntry>, name: string)
    ensures Lookup(es, name).Some? ==> Lookup(es, name).value in es
    ensures Lookup(es, name).None? <==> forall e | e in es :: e.name != name
  {
    if es != [] && es[0].name != name {
      LookupFacts(es[1..], name);
      assert forall e | e in es :: e == es[0] || e in es[1..];
      if Lookup(es, name).Some? {
        assert Lookup(es, name).value in es[1..];
      }
    }
  }

  /** In a directory, the entry called `name` is the one entry of that name. */
  lemma {:induction false} LookupUnique(es: seq<FileEntry>, e: FileEntry)
    requires UniqueNames(es) && e in es
    ensures Lookup(es, e.name) == Some(e)
  {
    if es[0] != e {
      assert e in es[1..];
      LookupUnique(es[1..], e);
    }
  }

  /**
   * The check `is_valid_file(file_path)` the callbacks repeat before sending
   * accepts every file `get_random_file_from_folder` has just returned.
   */
  lemma RecheckPasses(layout: Layout, folders: Folders, p: Pick)
    requires AllUnique(folders) && Available(layout, folders, p)
    ensures Lookup(folders[p.category], p.name).Some?
    ensures FileValidity.IsValidFile(PathIn(layout, p.category, p.name), true, Lookup(folders[p.category], p.name).value.size)
  {
    ValidNamesMembers(layout, p.category, folders[p.category], p.name);
    var e :| e in folders[p.category] && e.name == p.name && Usable(layout, p.category, e);
    LookupUnique(folders[p.category], e);
  }

  // ---------------------------------------------------------------- slots

  /** A slot of a post: one category, or `a/b`, category `a` with `b` as its fallback. */
  datatype Slot = Plain(category: Category) | Fallback(first: Category, second: Category)

  function Sources(slot: Slot): set<Category>
  {
    match slot
    case Plain(c) => {c}
    case Fallback(a, b) => {a, b}
  }

  /** The slots of `autopost_10_pics_callback`, in its order. */
  const TenPictureSlots: seq<Slot> := [
    Plain(EroReal), Fallback(StandartArt, StandartMeme), Plain(EroAnime), Fallback(SingleMeme, StandartMeme),
    Plain(EroReal), Plain(StandartMeme), Plain(EroAnime), Plain(StandartMeme), Plain(EroReal), Plain(StandartMeme)]

  /** The slots of `autopost_4_videos_callback`, in the order it fills them: meme, ero, the two auto. */
  const VideoSlots: seq<Slot> := [
    Plain(VideoMeme), Fallback(VideoEro, VideoMeme), Fallback(VideoAuto, VideoMeme), Fallback(VideoAuto, VideoMeme)]

  /** A chosen file: the category whose folder it comes from, and its name there. */
  datatype Pick = Pick(category: Category, name: string)

  /**
   * A file a slot may get: a valid file of one of the slot's categories, and
   * for an `a/b` slot one of `a` exactly when `a` has a valid file.
   */
  predicate Fits(layout: Layout, folders: Folders, slot: Slot, p: Pick)
  {
    && p.category in Sources(slot)
    && Available(layout, folders, p)
    && (slot.Fallback? ==> (p.category == slot.first <==> !NoFile(layout, folders, slot.first)))
  }

  /**
   * The file one slot gets, with the draws for its first and its fallback
   * category. It has none exactly when none of its categories has a file; the
   * file is a valid file of the category recorded with it; and an `a/b` slot
   * records `a` exactly when `a` has a file.
   */
  function SelectSlot(layout: Layout, folders: Folders, slot: Slot, first: nat, second: nat): (r: Option<Pick>)
    ensures r.None? <==> forall c | c in Sources(slot) :: NoFile(layout, folders, c)
    ensures r.Some? ==> Fits(layout, folders, slot, r.value)
  {
    match slot
    case Plain(c) =>
      (match RandomFile(layout, folders, c, first)
       case None => None
       case Some(n) => Some(Pick(c, n)))
    case Fallback(a, b) =>
      match RandomFile(layout, folders, a, first)
      case Some(n) => Some(Pick(a, n))
      case None =>
        match RandomFile(layout, folders, b, second)
        case None => None
        case Some(n) => Some(Pick(b, n))
  }

  /** The file of slot `j`, with the draws `draw(2j)` and, for its fallback, `draw(2j + 1)`. */
  function SlotPick(layout: Layout, folders: Folders, slots: seq<Slot>, draw: nat -> nat, j: nat): Option<Pick>
    requires j < |slots|
  {
    SelectSlot(layout, folders, slots[j], draw(2 * j), draw(2 * j + 1))
  }

  /** What every slot would get, slot by slot. */
  function SlotOptions(layout: Layout, folders: Folders, slots: seq<Slot>, draw: nat -> nat): (r: seq<Option<Pick>>)
    ensures |r| == |slots|
    ensures forall j | 0 <= j < |slots| :: r[j] == SlotPick(layout, folders, slots, draw, j)
  {
    seq(|slots|, j requires 0 <= j < |slots| => SlotPick(layout, folders, slots, draw, j))
  }

  /** The files of all slots, or the first slot without one. */
  datatype Selection = Chosen(picks: seq<Pick>) | Missing(slot: nat)

  /** Walking the slots in order: the files of them all, or the first slot that gets none. */
  function Select(opts: seq<Option<Pick>>): (r: Selection)
    ensures r.Chosen? ==> |r.picks| == |opts|
    ensures r.Missing? ==> r.slot < |opts|
  {
    if opts == [] then Chosen([])
    else
      match opts[0]
      case None => Missing(0)
      case Some(p) =>
        match Select(opts[1..])
        case Missing(j) => Missing(j + 1)
        case Chosen(ps) => Chosen([p] + ps)
  }

  /**
   * What `Select` returns means what it says: chosen files are the slots'
   * files in order, and a missing slot is the first that has none.
   */
  lemma {:induction false} SelectSound(opts: seq<Option<Pick>>)
    ensures Select(opts).Chosen? ==>
      forall j | 0 <= j < |opts| :: opts[j] == Some(Select(opts).picks[j])
    ensures Select(opts).Missing? ==>
      (opts[Select(opts).slot].None? && forall j | 0 <= j < Select(opts).slot :: opts[j].Some?)
  {
    if opts != [] && opts[0].Some? {
      var tail := opts[1..];
      SelectSound(tail);
      match Select(tail)
      case Missing(m) =>
        assert Select(opts) == Missing(m + 1);
        assert opts[m + 1] == tail[m];
        forall j | 0 <= j < m + 1
          ensures opts[j].Some?
        {
          if j > 0 {
            assert opts[j] == tail[j - 1];
          }
        }
      case Chosen(ps) =>
        var all := [opts[0].value] + ps;
        assert Select(opts) == Chosen(all);
        forall j | 0 <= j < |opts|
          ensures opts[j] == Some(all[j])
        {
          if j > 0 {
            assert opts[j] == tail[j - 1];
            assert all[j] == ps[j - 1];
          }
        }
    }
  }

  /**
   * Conversely, given the file of every slot up to the first without one, or
   * of every slot, that is the selection.
   */
  lemma {:induction false} SelectComplete(opts: seq<Option<Pick>>, picks: seq<Pick>)
    requires |picks| <= |opts|
    requires forall j | 0 <= j < |picks| :: opts[j] == Some(picks[j])
    ensures |picks| == |opts| ==> Select(opts) == Chosen(picks)
    ensures |picks| < |opts| && opts[|picks|].None? ==> Select(opts) == Missing(|picks|)
  {
    if picks != [] {
      var tail := opts[1..];
      assert opts[0] == Some(picks[0]);
      forall j | 0 <= j < |picks[1..]|
        ensures tail[j] == Some(picks[1..][j])
      {
        assert tail[j] == opts[j + 1];
      }
      SelectComplete(tail, picks[1..]);
      if |picks| < |opts| {
        assert tail[|picks[1..]|] == opts[|picks|];
      }
      assert [picks[0]] + picks[1..] == picks;
    }
  }

  /** The selection a callback makes over its slots. */
  function Selected(layout: Layout, folders: Folders, slots: seq<Slot>, draw: nat -> nat): Selection
  {
    Select(SlotOptions(layout, folders, slots, draw))
  }

  /** `Selected` in terms of the slots: every slot's file, or the first slot without one. */
  lemma SelectedSound(layout: Layout, folders: Folders, slots: seq<Slot>, draw: nat -> nat)
    ensures var r := Selected(layout, folders, slots, draw);
      r.Chosen? ==> |r.picks| == |slots| && forall j | 0 <= j < |slots| :: SlotPick(layout, folders, slots, draw, j) == Some(r.picks[j])
    ensures var r := Selected(layout, folders, slots, draw);
      r.Missing? ==>
        (&& r.slot < |slots|
         && SlotPick(layout, folders, slots, draw, r.slot).None?
         && forall j | 0 <= j < r.slot :: SlotPick(layout, folders, slots, draw, j).Some?)
  {
    SelectSound(SlotOptions(layout, folders, slots, draw));
  }

  /** `Selected` from the files found so far: all slots have one, or the next has none. */
  lemma SelectionOf(layout: Layout, folders: Folders, slots: seq<Slot>, draw: nat -> nat, picks: seq<Pick>)
    requires |picks| <= |slots|
    requires forall j | 0 <= j < |picks| :: SlotPick(layout, folders, slots, draw, j) == Some(picks[j])
    ensures |picks| == |slots| ==> Selected(layout, folders, slots, draw) == Chosen(picks)
    ensures |picks| < |slots| && SlotPick(layout, folders, slots, draw, |picks|).None? ==>
      Selected(layout, folders, slots, draw) == Missing(|picks|)
  {
    SelectComplete(SlotOptions(layout, folders, slots, draw), picks);
  }

  /** Every file of a complete selection fits its slot and is there to be moved. */
  lemma ChosenFit(layout: Layout, folders: Folders, slots: seq<Slot>, draw: nat -> nat)
    requires Selected(layout, folders, slots, draw).Chosen?
    ensures var ps := Selected(layout, folders, slots, draw).picks;
      && |ps| == |slots|
      && forall j | 0 <= j < |slots| :: Fits(layout, folders, slots[j], ps[j]) && Present(folders, ps[j])
  {
    SelectedSound(layout, folders, slots, draw);
    var ps := Selected(layout, folders, slots, draw).picks;
    forall j | 0 <= j < |slots|
      ensures Fits(layout, folders, slots[j], ps[j]) && Present(folders, ps[j])
    {
      assert SlotPick(layout, folders, slots, draw, j) == Some(ps[j]);
      AvailableIsPresent(layout, folders, ps[j]);
    }
  }

  // ---------------------------------------------------------------- archiving

  /** A file `move_file_to_archive` moved: the category it was filed under, and the entry. */
  datatype Moved = Moved(category: Category, entry: FileEntry)

  function Picked(m: Moved): Pick
  {
    Pick(m.category, m.entry.name)
  }

  /** Where `move_file_to_archive(path, category)` puts a pick. */
  function Destination(layout: Layout, p: Pick): string
  {
    ArchiveDestination(layout, PathIn(layout, p.category, p.name), Name(p.category))
  }

  /** A file keeps its name and lands in its category's archive folder. */
  lemma DestinationOfPick(layout: Layout, p: Pick)
    requires '/' !in p.name
    ensures Destination(layout, p) == PyPath.Join(layout.archive(p.category), p.name)
    ensures PyPath.Basename(Destination(layout, p)) == p.name
  {
    PyPath.BasenameOfJoin(layout.content(p.category), p.name);
  }

  /** The entries other than those called `name`. */
  function Without(es: seq<FileEntry>, name: string): (r: seq<FileEntry>)
    ensures |r| <= |es|
  {
    if es == [] then []
    else (if es[0].name == name then [] else [es[0]]) + Without(es[1..], name)
  }

  /** `Without` drops the entries called `name` and keeps every other. */
  lemma {:induction false} WithoutMembers(es: seq<FileEntry>, name: string)
    ensures forall e :: e in Without(es, name) <==> e in es && e.name != name
  {
    if es != [] {
      WithoutMembers(es[1..], name);
      var head := if es[0].name == name then [] else [es[0]];
      assert Without(es, name) == head + Without(es[1..], name);
      assert forall e | e in es :: e == es[0] || e in es[1..];
    }
  }

  lemma {:induction false} WithoutUnique(es: seq<FileEntry>, name: string)
    requires UniqueNames(es)
    ensures UniqueNames(Without(es, name))
  {
    if es != [] {
      WithoutUnique(es[1..], name);
      WithoutMembers(es[1..], name);
      var rest := Without(es[1..], name);
      if es[0].name != name {
        assert Without(es, name) == [es[0]] + rest;
        assert ([es[0]] + rest)[0] == es[0];
        assert ([es[0]] + rest)[1..] == rest;
      } else {
        assert Without(es, name) == [] + rest;
        assert [] + rest == rest;
      }
    }
  }

  /** The outcome of one move. */
  datatype Step = Step(folders: Folders, moved: Moved)

  /** The picked file `p` is in its folder. */
  predicate Present(folders: Folders, p: Pick)
  {
    p.category in folders && Lookup(folders[p.category], p.name).Some?
  }

  /** `move_file_to_archive` of one pick; `None` when the file is no longer there and `shutil.move` raises. */
  function MoveOne(folders: Folders, p: Pick): (r: Option<Step>)
    ensures r.Some? ==> r.value.folders.Keys == folders.Keys && Picked(r.value.moved) == p
    ensures r.None? <==> !Present(folders, p)
  {
    if p.category !in folders then None
    else
      match Lookup(folders[p.category], p.name)
      case None => None
      case Some(e) => Some(Step(folders[p.category := Without(folders[p.category], p.name)], Moved(p.category, e)))
  }

  /** One move takes exactly the picked file out of its folder, and touches no other folder. */
  lemma MoveOneRemoves(folders: Folders, p: Pick)
    requires MoveOne(folders, p).Some?
    ensures PicksRemoved(folders, MoveOne(folders, p).value.folders, [p])
  {
    WithoutMembers(folders[p.category], p.name);
  }

  /** The folders and the files moved, after all moves or when one raised at position `at`. */
  datatype Archiving =
    | Archived(folders: Folders, moves: seq<Moved>)
    | Failed(at: nat, folders: Folders, moves: seq<Moved>)

  /**
   * `for path, cat in used_files: move_file_to_archive(path, cat)`: every
   * file moved is the pick at its position, and a move that raises ends the
   * loop.
   */
  function ArchiveRun(folders: Folders, ps: seq<Pick>): (r: Archiving)
    ensures r.Archived? ==> |r.moves| == |ps|
    ensures r.Failed? ==> r.at < |ps| && |r.moves| == r.at
    ensures r.folders.Keys == folders.Keys
  {
    if ps == [] then Archived(folders, [])
    else
      var init := ps[..|ps| - 1];
      match ArchiveRun(folders, init)
      case Failed(at, f, ms) => Failed(at, f, ms)
      case Archived(f, ms) =>
        match MoveOne(f, ps[|ps| - 1])
        case None => Failed(|ps| - 1, f, ms)
        case Some(st) => Archived(st.folders, ms + [st.moved])
  }

  /** One more pick after a run that moved everything: one more move, or a failure at the new pick. */
  lemma ArchiveRunStep(folders: Folders, ps: seq<Pick>, i: nat)
    requires i < |ps| && ArchiveRun(folders, ps[..i]).Archived?
    ensures var run := ArchiveRun(folders, ps[..i]);
      var step := MoveOne(run.folders, ps[i]);
      ArchiveRun(folders, ps[..i + 1]) ==
        if step.None? then Failed(i, run.folders, run.moves)
        else Archived(step.value.folders, run.moves + [step.value.moved])
  {
    assert ps[..i + 1][..i] == ps[..i];
  }

  /** Each file moved is the pick at its position. */
  lemma {:induction false} ArchiveRunMoves(folders: Folders, ps: seq<Pick>)
    ensures var r := ArchiveRun(folders, ps);
      forall i | 0 <= i < |r.moves| :: Picked(r.moves[i]) == ps[i]
  {
    if ps != [] {
      var init := ps[..|ps| - 1];
      ArchiveRunMoves(folders, init);
      var run := ArchiveRun(folders, init);
      if run.Archived? && MoveOne(run.folders, ps[|ps| - 1]).Some? {
        var ms := ArchiveRun(folders, ps).moves;
        assert ms == run.moves + [MoveOne(run.folders, ps[|ps| - 1]).value.moved];
        forall i | 0 <= i < |ms|
          ensures Picked(ms[i]) == ps[i]
        {
          if i < |init| {
            assert ms[i] == run.moves[i];
            assert init[i] == ps[i];
          }
        }
      }
    }
  }

  /** Each folder of `after` holds exactly the entries it held in `before` that were not picked from it. */
  ghost predicate PicksRemoved(before: Folders, after: Folders, ps: seq<Pick>)
  {
    && after.Keys == before.Keys
    && forall c, e | c in after :: e in after[c] <==> e in before[c] && Pick(c, e.name) !in ps
  }

  /**
   * After all moves, a folder holds exactly the entries it held that were
   * not picked from it: the picked files are gone and nothing else is.
   */
  lemma {:induction false} ArchivedRemovesPicks(folders: Folders, ps: seq<Pick>)
    requires ArchiveRun(folders, ps).Archived?
    ensures PicksRemoved(folders, ArchiveRun(folders, ps).folders, ps)
  {
    if ps != [] {
      var init := ps[..|ps| - 1];
      var last := ps[|ps| - 1];
      assert ps == init + [last];
      ArchivedRemovesPicks(folders, init);
      var f0 := ArchiveRun(folders, init).folders;
      assert PicksRemoved(folders, f0, init);
      MoveOneRemoves(f0, last);
      var f := ArchiveRun(folders, ps).folders;
      assert f == MoveOne(f0, last).value.folders;
      assert PicksRemoved(f0, f, [last]);
      forall c, e | c in f
        ensures e in f[c] <==> e in folders[c] && Pick(c, e.name) !in ps
      {
        assert c in f0;
        var q := Pick(c, e.name);
        assert q in ps <==> q in init || q == last;
        assert e in f[c] <==> e in f0[c] && q !in [last];
        assert e in f0[c] <==> e in folders[c] && q !in init;
      }
      assert f.Keys == folders.Keys;
      assert PicksRemoved(folders, f, ps);
    } else {
      assert ArchiveRun(folders, ps).folders == folders;
      assert PicksRemoved(folders, folders, ps);
    }
  }

  /** The moves keep every directory free of repeated names. */
  lemma {:induction false} ArchiveKeepsUnique(folders: Folders, ps: seq<Pick>)
    requires AllUnique(folders)
    ensures AllUnique(ArchiveRun(folders, ps).folders)
  {
    if ps != [] {
      var init := ps[..|ps| - 1];
      var last := ps[|ps| - 1];
      ArchiveKeepsUnique(folders, init);
      var run := ArchiveRun(folders, init);
      if run.Archived? && MoveOne(run.folders, last).Some? {
        WithoutUnique(run.folders[last.category], last.name);
      }
    }
  }

  /** Different picks of files that are all there are all moved. */
  lemma {:induction false} DistinctPicksAllMove(folders: Folders, ps: seq<Pick>)
    requires forall i | 0 <= i < |ps| :: Present(folders, ps[i])
    requires forall i, j | 0 <= i < j < |ps| :: ps[i] != ps[j]
    ensures ArchiveRun(folders, ps).Archived?
  {
    if ps != [] {
      var init := ps[..|ps| - 1];
      var last := ps[|ps| - 1];
      forall i | 0 <= i < |init|
        ensures Present(folders, init[i]) && init[i] != last
      {
        assert init[i] == ps[i];
      }
      DistinctPicksAllMove(folders, init);
      ArchivedRemovesPicks(folders, init);
      var f0 := ArchiveRun(folders, init).folders;
      assert PicksRemoved(folders, f0, init);
      var c := last.category;
      LookupFacts(folders[c], last.name);
      var e := Lookup(folders[c], last.name).value;
      assert last !in init;
      assert e in f0[c];
      LookupFacts(f0[c], last.name);
      assert Present(f0, last);
    }
  }

  /**
   * A move raises only when the same file was picked twice: the second
   * `shutil.move` finds it gone.
   */
  lemma ArchiveFailsOnlyOnRepeat(folders: Folders, ps: seq<Pick>)
    requires forall i | 0 <= i < |ps| :: Present(folders, ps[i])
    requires ArchiveRun(folders, ps).Failed?
    ensures exists i, j | 0 <= i < j < |ps| :: ps[i] == ps[j]
  {
    if forall i, j | 0 <= i < j < |ps| :: ps[i] != ps[j] {
      DistinctPicksAllMove(folders, ps);
    }
  }

  /** Once a move has raised, the later picks change nothing: the failure is that of the first `n` picks. */
  lemma {:induction false} LaterMovesKeepFailure(folders: Folders, ps: seq<Pick>, n: nat)
    requires 0 < n <= |ps| && ArchiveRun(folders, ps[..n]).Failed?
    ensures ArchiveRun(folders, ps) == ArchiveRun(folders, ps[..n])
    decreases |ps| - n
  {
    if n < |ps| {
      assert ps[..n + 1][..n] == ps[..n];
      LaterMovesKeepFailure(folders, ps, n + 1);
    } else {
      assert ps[..n] == ps;
    }
  }

  /** A move that fails after a clean prefix is where the whole run fails. */
  lemma ArchiveRunFailsAt(folders: Folders, ps: seq<Pick>, i: nat, f: Folders, ms: seq<Moved>)
    requires i < |ps| && ArchiveRun(folders, ps[..i]) == Archived(f, ms) && MoveOne(f, ps[i]).None?
    ensures ArchiveRun(folders, ps) == Failed(i, f, ms)
  {
    ArchiveRunStep(folders, ps, i);
    LaterMovesKeepFailure(folders, ps, i + 1);
  }

  /** Every pick the selection makes is there to be moved. */
  lemma AvailableIsPresent(layout: Layout, folders: Folders, p: Pick)
    requires Available(layout, folders, p)
    ensures Present(folders, p)
  {
    ValidNamesMembers(layout, p.category, folders[p.category], p.name);
    var e :| e in folders[p.category] && e.name == p.name && Usable(layout, p.category, e);
    LookupFacts(folders[p.category], p.name);
  }

  // ---------------------------------------------------------------- the protocol

  datatype Kind = Pictures | Videos

  function Slots(kind: Kind): seq<Slot>
  {
    match kind
    case Pictures => TenPictureSlots
    case Videos => VideoSlots
  }

  /**
   * The files in the order they are sent and archived: the pictures in slot
   * order, the videos as auto one, meme, ero, auto two.
   */
  function Arrange(kind: Kind, ps: seq<Pick>): seq<Pick>
    requires |ps| == |Slots(kind)|
  {
    match kind
    case Pictures => ps
    case Videos => [ps[2], ps[0], ps[1], ps[3]]
  }

  /** How a callback ends. */
  datatype Outcome =
    | Disabled
    | NoAnecdote
    | OutOf(slot: nat)
    | SendFailed
    | Posted(anecdote: string, used: seq<Pick>)
    | ArchiveFailed(anecdote: string, used: seq<Pick>, at: nat)

  /** What the bot keeps on disk. */
  datatype Snapshot = Snapshot(folders: Folders, archive: seq<Moved>, anecdoteFile: Option<string>)

  datatype Effect = Effect(outcome: Outcome, after: Snapshot)

  /**
   * A callback run with autopost `enabled`, the anecdote draw, the file
   * draws, and whether `send_media_group` and `send_message` complete.
   */
  function Post(layout: Layout, s: Snapshot, kind: Kind, enabled: bool, anecdotePick: nat, draw: nat -> nat,
                mediaSent: bool, textSent: bool): (e: Effect)
    ensures e.outcome.Disabled? <==> !enabled
    ensures e.outcome.NoAnecdote? <==> enabled && Anecdotes.CountAnecdotes(s.anecdoteFile) == 0
    ensures e.outcome.Disabled? || e.outcome.NoAnecdote? ==> e.after == s
    ensures e.outcome.SendFailed? ==> !(mediaSent && textSent)
    ensures e.outcome.OutOf? || e.outcome.SendFailed? ==> e.after.folders == s.folders && e.after.archive == s.archive
  {
    if !enabled then Effect(Disabled, s)
    else
      match Anecdotes.TakeAnecdote(s.anecdoteFile, anecdotePick)
      case None => Effect(NoAnecdote, s)
      case Some(t) =>
        var taken := s.(anecdoteFile := Some(t.rest));
        match Selected(layout, s.folders, Slots(kind), draw)
        case Missing(j) => Effect(OutOf(j), taken)
        case Chosen(ps) =>
          var used := Arrange(kind, ps);
          if !(mediaSent && textSent) then Effect(SendFailed, taken)
          else
            match ArchiveRun(s.folders, used)
            case Archived(f, ms) =>
              Effect(Posted(t.anecdote, used), taken.(folders := f, archive := s.archive + ms))
            case Failed(at, f, ms) =>
              Effect(ArchiveFailed(t.anecdote, used, at), taken.(folders := f, archive := s.archive + ms))
  }

  /** Every way out before the moves leaves all media files where they were. */
  lemma EarlyExitsKeepFiles(layout: Layout, s: Snapshot, kind: Kind, enabled: bool, anecdotePick: nat,
                            draw: nat -> nat, mediaSent: bool, textSent: bool)
    ensures var e := Post(layout, s, kind, enabled, anecdotePick, draw, mediaSent, textSent);
      !e.outcome.Posted? && !e.outcome.ArchiveFailed? ==>
        e.after.folders == s.folders && e.after.archive == s.archive
  {
  }

  /**
   * The anecdote is taken out of the file before any file is chosen: once
   * there is one, the file loses it whatever happens next; without one,
   * nothing changes.
   */
  lemma AnecdoteTakenFirst(layout: Layout, s: Snapshot, kind: Kind, anecdotePick: nat,
                           draw: nat -> nat, mediaSent: bool, textSent: bool)
    ensures var e := Post(layout, s, kind, true, anecdotePick, draw, mediaSent, textSent);
      match Anecdotes.TakeAnecdote(s.anecdoteFile, anecdotePick)
      case None => e == Effect(NoAnecdote, s)
      case Some(t) =>
        && e.after.anecdoteFile == Some(t.rest)
        && Anecdotes.CountAnecdotes(e.after.anecdoteFile) == Anecdotes.CountAnecdotes(s.anecdoteFile) - 1
  {
    match Anecdotes.TakeAnecdote(s.anecdoteFile, anecdotePick)
    case None =>
    case Some(t) =>
      Anecdotes.TakeRemovesOne(s.anecdoteFile, anecdotePick);
  }

  /** `archive'` is `archive` followed by one move per pick, in order. */
  ghost predicate MovedInOrder(archive: seq<Moved>, archive': seq<Moved>, used: seq<Pick>)
  {
    && |archive'| == |archive| + |used|
    && archive'[..|archive|] == archive
    && forall i | 0 <= i < |used| :: Picked(archive'[|archive| + i]) == used[i]
  }

  /**
   * What a finished run of the moves means for the store: the archive is
   * the old one followed by the picks in order, under the categories they
   * were taken from, and each folder lost exactly its picked entries.
   */
  lemma ArchivedMeaning(folders: Folders, used: seq<Pick>, archive: seq<Moved>, after: Folders, archive': seq<Moved>)
    requires |archive| <= |archive'| && archive'[..|archive|] == archive
    requires ArchiveRun(folders, used) == Archived(after, archive'[|archive|..])
    ensures MovedInOrder(archive, archive', used)
    ensures PicksRemoved(folders, after, used)
  {
    ArchivedRemovesPicks(folders, used);
    ArchiveRunMoves(folders, used);
    var ms := archive'[|archive|..];
    forall i | 0 <= i < |used|
      ensures Picked(archive'[|archive| + i]) == used[i]
    {
      assert archive'[|archive| + i] == ms[i];
    }
  }

  /** Files are archived only after both sends complete. */
  lemma ArchiveOnlyAfterSending(layout: Layout, s: Snapshot, kind: Kind, enabled: bool, anecdotePick: nat,
                                draw: nat -> nat, mediaSent: bool, textSent: bool)
    ensures var e := Post(layout, s, kind, enabled, anecdotePick, draw, mediaSent, textSent);
      (e.after.archive != s.archive || e.after.folders != s.folders) ==> mediaSent && textSent
    ensures var e := Post(layout, s, kind, enabled, anecdotePick, draw, mediaSent, textSent);
      e.outcome.Posted? || e.outcome.ArchiveFailed? ==> mediaSent && textSent
  {
    EarlyExitsKeepFiles(layout, s, kind, enabled, anecdotePick, draw, mediaSent, textSent);
  }

  /**
   * After a post, each file sent has been moved once, in sending order,
   * under the category it was taken from, and no other file has moved.
   */
  lemma PostedFilesArchived(layout: Layout, s: Snapshot, kind: Kind, enabled: bool, anecdotePick: nat,
                            draw: nat -> nat, mediaSent: bool, textSent: bool)
    ensures var e := Post(layout, s, kind, enabled, anecdotePick, draw, mediaSent, textSent);
      e.outcome.Posted? ==>
        && MovedInOrder(s.archive, e.after.archive, e.outcome.used)
        && PicksRemoved(s.folders, e.after.folders, e.outcome.used)
  {
    var e := Post(layout, s, kind, enabled, anecdotePick, draw, mediaSent, textSent);
    if e.outcome.Posted? {
      var run := ArchiveRun(s.folders, e.outcome.used);
      assert run.Archived? && e.after.folders == run.folders && e.after.archive == s.archive + run.moves;
      assert e.after.archive[|s.archive|..] == run.moves;
      ArchivedMeaning(s.folders, e.outcome.used, s.archive, e.after.folders, e.after.archive);
    }
  }

  /** A post whose files were all chosen sends them in the order `Arrange` gives. */
  lemma PostedSelection(layout: Layout, s: Snapshot, kind: Kind, enabled: bool, anecdotePick: nat, draw: nat -> nat,
                        mediaSent: bool, textSent: bool)
    ensures var e := Post(layout, s, kind, enabled, anecdotePick, draw, mediaSent, textSent);
      var sel := Selected(layout, s.folders, Slots(kind), draw);
      e.outcome.Posted? || e.outcome.ArchiveFailed? ==>
        sel.Chosen? && |sel.picks| == |Slots(kind)| && e.outcome.used == Arrange(kind, sel.picks)
  {
  }

  /** A post that is sent moves all its files unless it picked the same file twice. */
  lemma SentPostIsArchived(layout: Layout, s: Snapshot, kind: Kind, anecdotePick: nat, draw: nat -> nat)
    ensures var e := Post(layout, s, kind, true, anecdotePick, draw, true, true);
      e.outcome.ArchiveFailed? ==>
        exists i, j | 0 <= i < j < |e.outcome.used| :: e.outcome.used[i] == e.outcome.used[j]
  {
    var e := Post(layout, s, kind, true, anecdotePick, draw, true, true);
    if e.outcome.ArchiveFailed? {
      PostedSelection(layout, s, kind, true, anecdotePick, draw, true, true);
      var ps := Selected(layout, s.folders, Slots(kind), draw).picks;
      assert ArchiveRun(s.folders, e.outcome.used).Failed?;
      ArrangedFit(layout, s.folders, kind, draw);
      ArchiveFailsOnlyOnRepeat(s.folders, Arrange(kind, ps));
    }
  }

  /** Whatever order they are sent in, the chosen files are valid files of their folders, there to be moved. */
  lemma ArrangedFit(layout: Layout, folders: Folders, kind: Kind, draw: nat -> nat)
    requires Selected(layout, folders, Slots(kind), draw).Chosen?
    ensures var used := Arrange(kind, Selected(layout, folders, Slots(kind), draw).picks);
      forall i | 0 <= i < |used| :: Available(layout, folders, used[i]) && Present(folders, used[i])
  {
    ChosenFit(layout, folders, Slots(kind), draw);
    var ps := Selected(layout, folders, Slots(kind), draw).picks;
    var used := Arrange(kind, ps);
    forall i | 0 <= i < |used|
      ensures Available(layout, folders, used[i]) && Present(folders, used[i])
    {
      var j: nat := if kind == Pictures then i else [2, 0, 1, 3][i];
      assert used[i] == ps[j];
    }
  }

  /**
   * The ten pictures: the picture of an `a/b` slot is from `b` only when `a`
   * has no valid file, and a plain slot's picture is from its own category.
   * All pictures are valid files of their folders.
   */
  lemma PicturesFit(layout: Layout, folders: Folders, draw: nat -> nat)
    requires Selected(layout, folders, TenPictureSlots, draw).Chosen?
    ensures var ps := Selected(layout, folders, TenPictureSlots, draw).picks;
      && |ps| == 10
      && (forall i | 0 <= i < 10 :: Available(layout, folders, ps[i]))
      && (forall i | 0 <= i < 10 && TenPictureSlots[i].Plain? :: ps[i].category == TenPictureSlots[i].category)
      && (ps[1].category == StandartMeme <==> NoFile(layout, folders, StandartArt))
      && (ps[3].category == StandartMeme <==> NoFile(layout, folders, SingleMeme))
  {
    var ps := Selected(layout, folders, TenPictureSlots, draw).picks;
    ChosenFit(layout, folders, TenPictureSlots, draw);
    assert Fits(layout, folders, TenPictureSlots[1], ps[1]);
    assert Fits(layout, folders, TenPictureSlots[3], ps[3]);
  }

  /** The ten-picture post sends the pictures `PicturesFit` describes, in slot order. */
  lemma PicturesSentInSlotOrder(layout: Layout, s: Snapshot, anecdotePick: nat, draw: nat -> nat, mediaSent: bool, textSent: bool)
    ensures var e := Post(layout, s, Pictures, true, anecdotePick, draw, mediaSent, textSent);
      e.outcome.Posted? ==>
        && Selected(layout, s.folders, TenPictureSlots, draw).Chosen?
        && e.outcome.used == Selected(layout, s.folders, TenPictureSlots, draw).picks
  {
  }

  /**
   * The four videos: the meme video is from video-meme; the ero video is from
   * video-ero exactly when it has a valid file, and each auto video from
   * video-auto exactly when it has one, video-meme standing in otherwise.
   */
  lemma VideosFit(layout: Layout, folders: Folders, draw: nat -> nat)
    requires Selected(layout, folders, VideoSlots, draw).Chosen?
    ensures var ps := Selected(layout, folders, VideoSlots, draw).picks;
      && |ps| == 4
      && (forall i | 0 <= i < 4 :: Available(layout, folders, ps[i]))
      && ps[0].category == VideoMeme
      && (ps[1].category == VideoEro <==> !NoFile(layout, folders, VideoEro))
      && (ps[2].category == VideoAuto <==> !NoFile(layout, folders, VideoAuto))
      && (ps[3].category == VideoAuto <==> !NoFile(layout, folders, VideoAuto))
      && (forall i | 0 <= i < 4 :: ps[i].category in {VideoMeme, VideoEro, VideoAuto})
  {
    var ps := Selected(layout, folders, VideoSlots, draw).picks;
    ChosenFit(layout, folders, VideoSlots, draw);
    assert Fits(layout, folders, VideoSlots[0], ps[0]);
    assert Fits(layout, folders, VideoSlots[1], ps[1]);
    assert Fits(layout, folders, VideoSlots[2], ps[2]);
    assert Fits(layout, folders, VideoSlots[3], ps[3]);
  }

  /** The four-video post sends the videos `VideosFit` describes as auto one, meme, ero, auto two. */
  lemma VideosSentInSendingOrder(layout: Layout, s: Snapshot, anecdotePick: nat, draw: nat -> nat, mediaSent: bool, textSent: bool)
    ensures var e := Post(layout, s, Videos, true, anecdotePick, draw, mediaSent, textSent);
      var sel := Selected(layout, s.folders, VideoSlots, draw);
      e.outcome.Posted? ==>
        && sel.Chosen? && |sel.picks| == 4
        && e.outcome.used == [sel.picks[2], sel.picks[0], sel.picks[1], sel.picks[3]]
  {
  }

  /** A slot runs dry exactly when none of its categories has a valid file, and all earlier slots did not. */
  lemma MissingMeansEmpty(layout: Layout, folders: Folders, slots: seq<Slot>, draw: nat -> nat)
    requires Selected(layout, folders, slots, draw).Missing?
    ensures var m := Selected(layout, folders, slots, draw).slot;
      && m < |slots|
      && (forall c | c in Sources(slots[m]) :: NoFile(layout, folders, c))
      && (forall j | 0 <= j < m :: exists c | c in Sources(slots[j]) :: !NoFile(layout, folders, c))
  {
    var m := Selected(layout, folders, slots, draw).slot;
    SelectedSound(layout, folders, slots, draw);
    assert SlotPick(layout, folders, slots, draw, m).None?;
    forall j | 0 <= j < m
      ensures exists c | c in Sources(slots[j]) :: !NoFile(layout, folders, c)
    {
      assert SlotPick(layout, folders, slots, draw, j).Some?;
    }
  }

  /** A slot that falls back to a category with a valid file always gets a file. */
  lemma MemeBacksFallbacks(layout: Layout, folders: Folders, slot: Slot, first: nat, second: nat)
    requires slot.Fallback? && !NoFile(layout, folders, slot.second)
    ensures SelectSlot(layout, folders, slot, first, second).Some?
  {
  }

  /**
   * The four-video post can only run out at its first slot: the other three
   * fall back to video-meme, which the first has just drawn from.
   */
  lemma VideosRunOutOnlyFirst(layout: Layout, folders: Folders, draw: nat -> nat)
    requires Selected(layout, folders, VideoSlots, draw).Missing?
    ensures Selected(layout, folders, VideoSlots, draw).slot == 0
    ensures NoFile(layout, folders, VideoMeme)
  {
    MissingMeansEmpty(layout, folders, VideoSlots, draw);
    var m := Selected(layout, folders, VideoSlots, draw).slot;
    assert VideoMeme in Sources(VideoSlots[m]);
    assert Sources(VideoSlots[0]) == {VideoMeme};
  }

  /** A post that runs out of files stops at the first slot `MissingMeansEmpty` describes. */
  lemma OutOfMeansEmpty(layout: Layout, s: Snapshot, kind: Kind, anecdotePick: nat, draw: nat -> nat, mediaSent: bool, textSent: bool)
    ensures var e := Post(layout, s, kind, true, anecdotePick, draw, mediaSent, textSent);
      e.outcome.OutOf? ==> Selected(layout, s.folders, Slots(kind), draw) == Missing(e.outcome.slot)
  {
  }

  // ---------------------------------------------------------------- the store

  class Store {
    const layout: Layout
    var folders: Folders
    var archive: seq<Moved>
    var anecdoteFile: Option<string>

    predicate Valid()
      reads this
    {
      AllUnique(folders)
    }

    function State(): Snapshot
      reads this
    {
      Snapshot(folders, archive, anecdoteFile)
    }

    constructor(layout: Layout, folders: Folders, anecdoteFile: Option<string>)
      requires AllUnique(folders)
      ensures Valid() && this.layout == layout && State() == Snapshot(folders, [], anecdoteFile)
    {
      this.layout := layout;
      this.folders := folders;
      this.archive := [];
      this.anecdoteFile := anecdoteFile;
    }

    /**
     * `move_file_to_archive(path, category)` for a pick: the entry leaves its
     * folder and is recorded as moved; `false` when `shutil.move` raises.
     */
    method MoveToArchive(p: Pick) returns (ok: bool)
      modifies this
      ensures anecdoteFile == old(anecdoteFile)
      ensures ok <==> MoveOne(old(folders), p).Some?
      ensures !ok ==> folders == old(folders) && archive == old(archive)
      ensures ok ==> (folders == MoveOne(old(folders), p).value.folders
                   && archive == old(archive) + [MoveOne(old(folders), p).value.moved])
    {
      if p.category !in folders {
        return false;
      }
      var entries := folders[p.category];
      var e := Lookup(entries, p.name);
      if e.None? {
        return false;
      }
      folders := folders[p.category := Without(entries, p.name)];
      archive := archive + [Moved(p.category, e.value)];
      ok := true;
    }

    /** The archiving loop of both callbacks: `at` is where a move raised, if one did. */
    method ArchiveAll(used: seq<Pick>) returns (at: Option<nat>)
      modifies this
      ensures anecdoteFile == old(anecdoteFile)
      ensures var run := ArchiveRun(old(folders), used);
        && folders == run.folders && archive == old(archive) + run.moves
        && (at.None? <==> run.Archived?) && (at.Some? ==> at.value == run.at)
    {
      ghost var moves: seq<Moved> := [];
      var i := 0;
      while i < |used|
        invariant 0 <= i <= |used| && anecdoteFile == old(anecdoteFile)
        invariant archive == old(archive) + moves
        invariant ArchiveRun(old(folders), used[..i]) == Archived(folders, moves)
      {
        ghost var step := MoveOne(folders, used[i]);
        if step.None? {
          ArchiveRunFailsAt(old(folders), used, i, folders, moves);
        } else {
          ArchiveRunStep(old(folders), used, i);
        }
        var ok := MoveToArchive(used[i]);
        if !ok {
          at := Some(i);
          return;
        }
        moves := moves + [step.value.moved];
        i := i + 1;
      }
      assert used[..i] == used;
      at := None;
    }

    /**
     * One slot of a callback: `get_random_file_from_folder` on the slot's
     * category and, for an `a/b` slot that finds nothing in `a`, on `b`.
     */
    method ChooseSlot(slot: Slot, first: nat, second: nat) returns (file: Option<Pick>)
      ensures file == SelectSlot(layout, folders, slot, first, second)
    {
      match slot {
        case Plain(c) =>
          var name := RandomFile(layout, folders, c, first);
          file := if name.None? then None else Some(Pick(c, name.value));
        case Fallback(a, b) =>
          var name := RandomFile(layout, folders, a, first);
          if name.Some? {
            file := Some(Pick(a, name.value));
          } else {
            name := RandomFile(layout, folders, b, second);
            file := if name.None? then None else Some(Pick(b, name.value));
          }
      }
    }

    /**
     * The check `is_valid_file(file_path)` both callbacks repeat on a chosen
     * file, with `os.path.exists` and `os.path.getsize` read off its folder.
     * It always passes: the file was chosen among the valid ones.
     */
    method Recheck(p: Pick) returns (ok: bool)
      requires Valid() && Available(layout, folders, p)
      ensures ok
    {
      var entry := if p.category in folders then Lookup(folders[p.category], p.name) else None;
      RecheckPasses(layout, folders, p);
      ok := entry.Some? && FileValidity.IsValidFile(PathIn(layout, p.category, p.name), true, entry.value.size);
    }

    /** The loop of `autopost_4_videos_callback` that checks every video again, in sending order. */
    method RecheckAll(used: seq<Pick>) returns (ok: bool)
      requires Valid() && forall i | 0 <= i < |used| :: Available(layout, folders, used[i])
      ensures ok
    {
      ok := true;
      for i := 0 to |used|
        invariant ok
      {
        var passed := Recheck(used[i]);
        ok := ok && passed;
      }
    }

    /**
     * The slot loop of `autopost_10_pics_callback`: the slots filled in
     * order, each file checked again before it is kept, up to the first
     * slot that gets none.
     */
    method FillSlots(slots: seq<Slot>, draw: nat -> nat) returns (sel: Selection)
      requires Valid()
      ensures sel == Selected(layout, folders, slots, draw)
    {
      var used: seq<Pick> := [];
      var i := 0;
      while i < |slots|
        invariant 0 <= i <= |slots| && |used| == i
        invariant forall j | 0 <= j < i :: SlotPick(layout, folders, slots, draw, j) == Some(used[j])
      {
        var file := ChooseSlot(slots[i], draw(2 * i), draw(2 * i + 1));
        if file.None? {
          SelectionOf(layout, folders, slots, draw, used);
          return Missing(i);
        }
        var ok := Recheck(file.value);
        if !ok {
          // the source reports a file that fails the check here; unreachable, as it was drawn among the valid ones
          assert false;
        }
        used := used + [file.value];
        i := i + 1;
      }
      SelectionOf(layout, folders, slots, draw, used);
      sel := Chosen(used);
    }

    /**
     * The four videos of `autopost_4_videos_callback`: meme, ero, the two
     * auto, each of the last three falling back to video-meme.
     */
    method ChooseVideos(draw: nat -> nat) returns (sel: Selection)
      requires Valid()
      ensures sel == Selected(layout, folders, VideoSlots, draw)
    {
      var meme := ChooseSlot(VideoSlots[0], draw(0), draw(1));
      if meme.None? {
        SelectionOf(layout, folders, VideoSlots, draw, []);
        return Missing(0);
      }
      // video-meme has a file now, so every fallback to it finds one: the
      // source's branches for a video-meme folder that runs dry later are dead.
      MemeBacksFallbacks(layout, folders, VideoSlots[1], draw(2), draw(3));
      var ero := ChooseSlot(VideoSlots[1], draw(2), draw(3));
      MemeBacksFallbacks(layout, folders, VideoSlots[2], draw(4), draw(5));
      var auto1 := ChooseSlot(VideoSlots[2], draw(4), draw(5));
      MemeBacksFallbacks(layout, folders, VideoSlots[3], draw(6), draw(7));
      var auto2 := ChooseSlot(VideoSlots[3], draw(6), draw(7));
      var picks := [meme.value, ero.value, auto1.value, auto2.value];
      assert SlotPick(layout, folders, VideoSlots, draw, 0) == meme;
      assert SlotPick(layout, folders, VideoSlots, draw, 1) == ero;
      assert SlotPick(layout, folders, VideoSlots, draw, 2) == auto1;
      assert SlotPick(layout, folders, VideoSlots, draw, 3) == auto2;
      SelectionOf(layout, folders, VideoSlots, draw, picks);
      sel := Chosen(picks);
    }

    /**
     * `autopost_10_pics_callback`: take the anecdote, choose the ten
     * pictures, send, archive.
     */
    method PostTenPictures(enabled: bool, anecdotePick: nat, draw: nat -> nat, mediaSent: bool, textSent: bool)
      returns (outcome: Outcome)
      requires Valid()
      modifies this
      ensures Valid()
      ensures Effect(outcome, State()) == Post(layout, old(State()), Pictures, enabled, anecdotePick, draw, mediaSent, textSent)
    {
      if !enabled {
        return Disabled;
      }
      var taken := Anecdotes.TakeAnecdote(anecdoteFile, anecdotePick);
      if taken.None? {
        return NoAnecdote;
      }
      anecdoteFile := Some(taken.value.rest);
      var sel := FillSlots(TenPictureSlots, draw);
      if sel.Missing? {
        return OutOf(sel.slot);
      }
      if !(mediaSent && textSent) {
        return SendFailed;
      }
      ArchiveKeepsUnique(folders, sel.picks);
      var at := ArchiveAll(sel.picks);
      if at.None? {
        outcome := Posted(taken.value.anecdote, sel.picks);
      } else {
        outcome := ArchiveFailed(taken.value.anecdote, sel.picks, at.value);
      }
    }

    /**
     * `autopost_4_videos_callback`: take the anecdote, choose the four
     * videos, send them as auto one, meme, ero, auto two, archive.
     */
    method PostFourVideos(enabled: bool, anecdotePick: nat, draw: nat -> nat, mediaSent: bool, textSent: bool)
      returns (outcome: Outcome)
      requires Valid()
      modifies this
      ensures Valid()
      ensures Effect(outcome, State()) == Post(layout, old(State()), Videos, enabled, anecdotePick, draw, mediaSent, textSent)
    {
      if !enabled {
        return Disabled;
      }
      var taken := Anecdotes.TakeAnecdote(anecdoteFile, anecdotePick);
      if taken.None? {
        return NoAnecdote;
      }
      anecdoteFile := Some(taken.value.rest);
      var sel := ChooseVideos(draw);
      if sel.Missing? {
        return OutOf(sel.slot);
      }
      var ps := sel.picks;
      var used := [ps[2], ps[0], ps[1], ps[3]];
      assert Slots(Videos) == VideoSlots && used == Arrange(Videos, sel.picks);
      ArrangedFit(layout, folders, Videos, draw);
      var checked := RecheckAll(used);
      if !checked {
        // the source reports a video that fails the check here; unreachable, as each was drawn among the valid ones
        assert false;
      }
      if !(mediaSent && textSent) {
        return SendFailed;
      }
      ArchiveKeepsUnique(folders, used);
      var at := ArchiveAll(used);
      if at.None? {
        outcome := Posted(taken.value.anecdote, used);
      } else {
        outcome := ArchiveFailed(taken.value.anecdote, used, at.value);
      }
    }
  }
}
