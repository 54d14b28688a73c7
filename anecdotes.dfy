/**
 * The anecdote store of utils_autopost.py: one text file holding anecdotes
 * separated by a line of fifty `=` (`count_anecdotes`,
 * `get_top_anecdote_and_remove`). A missing file is `None`.
 */
module Anecdotes {
  import opened Wrappers
  import opened PyStr

  /** `SEPARATOR`: fifty `=`. */
  const Separator: string := Repeat('=', 50)

  function Repeat(c: char, n: nat): (r: string)
    ensures |r| == n && forall i | 0 <= i < n :: r[i] == c
  {
    if n == 0 then [] else Repeat(c, n - 1) + [c]
  }

  /** What `get_top_anecdote_and_remove` puts between the remaining anecdotes. */
  const Joiner: string := "\n" + Separator + "\n"

  /** `[x.strip() for x in xs if x.strip()]`. */
  function Clean(xs: seq<string>): (r: seq<string>)
    ensures |r| <= |xs|
  {
    if xs == [] then []
    else
      var h := Strip(xs[0]);
      (if h == [] then [] else [h]) + Clean(xs[1..])
  }

  /** The anecdotes of an already stripped file content. */
  function Pieces(content: string): seq<string>
  {
    Clean(Split(content, Separator))
  }

  /** `count_anecdotes()`. */
  function CountAnecdotes(file: Option<string>): (r: nat)
    ensures file.None? ==> r == 0
    ensures file.Some? && Strip(file.value) == [] ==> r == 0
    ensures file.Some? ==> r == |Pieces(Strip(file.value))| && r <= |Split(Strip(file.value), Separator)|
  {
    match file
    case None => 0
    case Some(text) =>
      var content := Strip(text);
      if content == [] then 0 else |Pieces(content)|
  }

  /** What a stored anecdote looks like: non-empty, stripped, without a separator inside. */
  predicate WellFormed(p: string)
  {
    p != [] && Trimmed(p) && Free(p, Separator)
  }

  /** The file content written back: `"\n" + SEPARATOR + "\n"` joins the parts, then `strip()`. */
  function Render(parts: seq<string>): string
  {
    Strip(Join(parts, Joiner))
  }

  datatype Taken = Taken(anecdote: string, rest: string)

  /**
   * `get_top_anecdote_and_remove()`: the anecdote at `pick` modulo their
   * number (the model's stand-in for `random.randint`) and the new file
   * content, or `None`, in which case the file is not written.
   */
  function TakeAnecdote(file: Option<string>, pick: nat): (r: Option<Taken>)
    ensures r.None? <==> CountAnecdotes(file) == 0
    ensures r.Some? ==> r.value.anecdote == Pieces(Strip(file.value))[pick % CountAnecdotes(file)]
  {
    match file
    case None => None
    case Some(text) =>
      var content := Strip(text);
      if content == [] then None
      else
        var parts := Pieces(content);
        if parts == [] then None
        else
          var idx := pick % |parts|;
          Some(Taken(parts[idx], Render(parts[..idx] + parts[idx + 1..])))
  }

  lemma SeparatorIsEquals()
    ensures |Separator| == 50
    ensures forall i | 0 <= i < |Separator| :: Separator[i] == '='
  {
  }

  lemma {:induction false} CleanWellFormed(xs: seq<string>)
    requires forall k | 0 <= k < |xs| :: Free(xs[k], Separator)
    ensures forall k | 0 <= k < |Clean(xs)| :: WellFormed(Clean(xs)[k])
  {
    if xs != [] {
      var h := Strip(xs[0]);
      StripIsTrimmedInfix(xs[0]);
      var i, j :| 0 <= i <= j <= |xs[0]| && h == xs[0][i..j];
      FreeInfix(xs[0], Separator, i, j);
      CleanWellFormed(xs[1..]);
    }
  }

  /** Every anecdote read from a file is well formed. */
  lemma PiecesWellFormed(content: string)
    ensures forall k | 0 <= k < |Pieces(content)| :: WellFormed(Pieces(content)[k])
  {
    SplitPiecesFree(content, Separator);
    CleanWellFormed(Split(content, Separator));
  }

  lemma CleanCons(a: string, xs: seq<string>)
    ensures Clean([a] + xs) == (if Strip(a) == [] then [] else [Strip(a)]) + Clean(xs)
  {
    assert ([a] + xs)[0] == a && ([a] + xs)[1..] == xs;
  }

  /**
   * Before the separator that follows an anecdote and its newline, the joined
   * text holds no separator: a run of `=` inside the anecdote is too short and
   * the newlines break every longer one.
   */
  lemma NoEarlierSeparator(lead: string, p: string, b: string)
    requires lead == "" || lead == "\n"
    requires Free(p, Separator)
    ensures forall j: nat | j < |lead + p + "\n"| ::
      !OccursAt(lead + p + "\n" + Separator + b, Separator, j)
  {
    SeparatorIsEquals();
    var a := lead + p + "\n";
    var s := a + Separator + b;
    forall j: nat | j < |a| ensures !OccursAt(s, Separator, j) {
      if j + 50 > |a| - 1 {
        assert s[|a| - 1] == '\n';
        if j + 50 <= |s| {
          assert s[j..j + 50][|a| - 1 - j] == s[|a| - 1];
        }
      } else if lead == "\n" && j == 0 {
        assert s[0] == '\n';
        assert s[j..j + 50][0] == s[0];
      } else {
        var off := |lead|;
        assert j >= off;
        assert s[j..j + 50] == p[j - off..j - off + 50];
        assert !OccursAt(p, Separator, j - off);
      }
    }
  }

  /** A blank lead alone holds no anecdote. */
  lemma PiecesOfLead(lead: string)
    requires lead == "" || lead == "\n"
    ensures Clean(Split(lead, Separator)) == []
  {
    SeparatorIsEquals();
    assert Split(lead, Separator) == [lead];
    assert TrimStart(lead) == [];
    CleanCons(lead, []);
  }

  /** A blank lead before an anecdote creates no separator. */
  lemma LeadFree(lead: string, p: string)
    requires lead == "" || lead == "\n"
    requires Free(p, Separator)
    ensures Free(lead + p, Separator)
  {
    if lead == "" {
      assert lead + p == p;
    } else {
      NewlineFree(p);
    }
  }

  lemma NewlineFree(p: string)
    requires Free(p, Separator)
    ensures Free("\n" + p, Separator)
  {
    SeparatorIsEquals();
    var s := "\n" + p;
    assert s[1..] == p;
    forall j: nat | j < |s| ensures !OccursAt(s, Separator, j) {
      if j == 0 {
        if 50 <= |s| {
          assert s[..50][0] == '\n';
        }
      } else if j + 50 <= |s| {
        assert s[j..j + 50] == s[1..][j - 1..j + 49];
        assert !OccursAt(p, Separator, j - 1);
      }
    }
  }

  /** One anecdote after a blank lead is read back as itself. */
  lemma PiecesOfLast(lead: string, p: string)
    requires lead == "" || lead == "\n"
    requires WellFormed(p)
    ensures Clean(Split(lead + p, Separator)) == [p]
  {
    var s := lead + p;
    LeadFree(lead, p);
    SplitFree(s, Separator);
    StripPadded(lead, p, "");
    assert lead + p + "" == s;
    CleanCons(s, []);
  }

  /** The first anecdote of several is cut off at the separator after it. */
  lemma PiecesOfFirst(lead: string, p: string, tail: string)
    requires lead == "" || lead == "\n"
    requires WellFormed(p)
    ensures Clean(Split(lead + p + Joiner + tail, Separator))
         == [p] + Clean(Split("\n" + tail, Separator))
  {
    var a := lead + p + "\n";
    var b := "\n" + tail;
    assert lead + p + Joiner + tail == a + Separator + b;
    NoEarlierSeparator(lead, p, b);
    SplitAtFirst(a, Separator, b);
    StripPadded(lead, p, "\n");
    CleanCons(a, Split(b, Separator));
  }

  lemma HeadTail(xs: seq<string>)
    requires xs != []
    ensures [xs[0]] + xs[1..] == xs
  {
  }

  lemma WellFormedTail(ps: seq<string>)
    requires ps != [] && forall k | 0 <= k < |ps| :: WellFormed(ps[k])
    ensures forall k | 0 <= k < |ps[1..]| :: WellFormed(ps[1..][k])
  {
    forall k | 0 <= k < |ps[1..]| ensures WellFormed(ps[1..][k]) { assert ps[1..][k] == ps[k + 1]; }
  }

  lemma {:induction false} PiecesOfJoin(lead: string, ps: seq<string>)
    requires lead == "" || lead == "\n"
    requires forall k | 0 <= k < |ps| :: WellFormed(ps[k])
    ensures Clean(Split(lead + Join(ps, Joiner), Separator)) == ps
    decreases |ps|
  {
    if ps == [] {
      assert lead + Join(ps, Joiner) == lead;
      PiecesOfLead(lead);
    } else if |ps| == 1 {
      assert lead + Join(ps, Joiner) == lead + ps[0];
      PiecesOfLast(lead, ps[0]);
    } else {
      var rest := ps[1..];
      var tail := Join(rest, Joiner);
      var x := lead + Join(ps, Joiner);
      assert x == lead + ps[0] + Joiner + tail;
      PiecesOfFirst(lead, ps[0], tail);
      WellFormedTail(ps);
      PiecesOfJoin("\n", rest);
      HeadTail(ps);
    }
  }

  lemma {:induction false} JoinTrimmed(ps: seq<string>)
    requires forall k | 0 <= k < |ps| :: WellFormed(ps[k])
    ensures Trimmed(Join(ps, Joiner))
    ensures Join(ps, Joiner) == [] <==> ps == []
    decreases |ps|
  {
    if |ps| > 1 {
      var j := Join(ps, Joiner);
      JoinTrimmed(ps[1..]);
      var t := Join(ps[1..], Joiner);
      assert j == ps[0] + Joiner + t;
      assert j[0] == ps[0][0];
      assert j[|j| - 1] == t[|t| - 1];
    }
  }

  /** Writing anecdotes back and reading them again gives the same anecdotes in the same order. */
  lemma RenderRoundTrip(ps: seq<string>)
    requires forall k | 0 <= k < |ps| :: WellFormed(ps[k])
    ensures Strip(Render(ps)) == Render(ps)
    ensures Pieces(Strip(Render(ps))) == ps
    ensures CountAnecdotes(Some(Render(ps))) == |ps|
  {
    JoinTrimmed(ps);
    StripTrimmed(Join(ps, Joiner));
    StripTrimmed(Render(ps));
    PiecesOfJoin("", ps);
    assert "" + Join(ps, Joiner) == Join(ps, Joiner);
  }

  /**
   * After a successful take the file holds one anecdote fewer, and the
   * others in their old order.
   */
  lemma TakeRemovesOne(file: Option<string>, pick: nat)
    requires TakeAnecdote(file, pick).Some?
    ensures var parts := Pieces(Strip(file.value));
            var idx := pick % |parts|;
            var rest := TakeAnecdote(file, pick).value.rest;
            && Pieces(Strip(rest)) == parts[..idx] + parts[idx + 1..]
            && CountAnecdotes(Some(rest)) == CountAnecdotes(file) - 1
  {
    var parts := Pieces(Strip(file.value));
    var idx := pick % |parts|;
    var remaining := parts[..idx] + parts[idx + 1..];
    PiecesWellFormed(Strip(file.value));
    assert forall k | 0 <= k < |remaining| :: WellFormed(remaining[k]) by {
      forall k | 0 <= k < |remaining| ensures WellFormed(remaining[k]) {
        if k < idx { assert remaining[k] == parts[k]; } else { assert remaining[k] == parts[k + 1]; }
      }
    }
    RenderRoundTrip(remaining);
  }
}
