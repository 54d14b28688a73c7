/**
 * handlers/coffee_mishka.py `coffee_command`: the bot answers `/coffee` with
 * a coffee picture, but when the command comes twice within ten seconds it
 * answers with a special picture instead and starts counting afresh. The
 * module-level list `coffee_invocations` is the field of a `CoffeeCounter`;
 * `time.time()` is the parameter `now`.
 */
module Coffee {
  import opened Utils

  /** Calls count as close together when less than this many seconds apart. */
  const Window: real := 10.0

  /** `[t for t in xs if now - t < 10]`, the timestamps still inside the window. */
  function Recent(xs: seq<real>, now: real): (r: seq<real>)
    ensures |r| <= |xs|
    decreases |xs|
  {
    if xs == [] then []
    else
      var last := xs[|xs| - 1];
      Recent(xs[..|xs| - 1], now) + (if now - last < Window then [last] else [])
  }

  /** The filter keeps exactly the recent timestamps... */
  lemma {:induction false} RecentMembers(xs: seq<real>, now: real)
    ensures forall t :: t in Recent(xs, now) <==> t in xs && now - t < Window
    decreases |xs|
  {
    if xs != [] {
      var init := xs[..|xs| - 1];
      RecentMembers(init, now);
      assert xs == init + [xs[|xs| - 1]];
    }
  }

  /** ...in their old order: filtering distributes over concatenation. */
  lemma {:induction false} RecentOfConcat(xs: seq<real>, ys: seq<real>, now: real)
    ensures Recent(xs + ys, now) == Recent(xs, now) + Recent(ys, now)
    decreases |ys|
  {
    if ys == [] {
      assert xs + ys == xs;
    } else {
      var init := ys[..|ys| - 1];
      RecentOfConcat(xs, init, now);
      assert (xs + ys)[..|xs + ys| - 1] == xs + init;
      assert (xs + ys)[|xs + ys| - 1] == ys[|ys| - 1];
    }
  }

  /** Nothing is kept exactly when every timestamp is ten seconds old or older. */
  lemma {:induction false} RecentEmpty(xs: seq<real>, now: real)
    ensures Recent(xs, now) == [] <==> forall i | 0 <= i < |xs| :: now - xs[i] >= Window
  {
    RecentMembers(xs, now);
    if Recent(xs, now) != [] {
      var t := Recent(xs, now)[0];
      assert t in Recent(xs, now);
      var i :| 0 <= i < |xs| && xs[i] == t;
    } else {
      forall i | 0 <= i < |xs| ensures now - xs[i] >= Window {
        assert xs[i] in xs;
      }
    }
  }

  /** The list after a call, and whether the special picture is sent. */
  datatype Tick = Tick(kept: seq<real>, special: bool)

  /**
   * One call of `coffee_command` on the list `xs`: filter, append `now`, and
   * when that leaves two or more timestamps, empty the list and send the
   * special picture.
   */
  function Step(xs: seq<real>, now: real): (r: Tick)
    ensures |r.kept| <= 1
    ensures r.special <==> exists i | 0 <= i < |xs| :: now - xs[i] < Window
    ensures r.special ==> r.kept == []
    ensures !r.special ==> r.kept == [now]
  {
    RecentEmpty(xs, now);
    var recorded := Recent(xs, now) + [now];
    if |recorded| >= 2 then Tick([], true) else Tick(recorded, false)
  }

  /** A call right after the special picture is never special again. */
  lemma NoTwoSpecialsInARow(xs: seq<real>, first: real, second: real)
    requires Step(xs, first).special
    ensures !Step(Step(xs, first).kept, second).special
  {
  }

  /** A call less than ten seconds after an ordinary one gets the special picture. */
  lemma SecondCallSoonIsSpecial(xs: seq<real>, first: real, second: real)
    requires !Step(xs, first).special
    requires second - first < Window
    ensures Step(Step(xs, first).kept, second).special
  {
    assert Step(xs, first).kept[0] == first;
  }

  /** A call ten seconds or more after an ordinary one is ordinary again. */
  lemma LateCallIsOrdinary(xs: seq<real>, first: real, second: real)
    requires !Step(xs, first).special
    requires second - first >= Window
    ensures !Step(Step(xs, first).kept, second).special
    ensures Step(Step(xs, first).kept, second).kept == [second]
  {
  }

  /** What the command sends: the special picture, or the coffee picture behind the chat check. */
  datatype Reply = Special | Screened(screening: Screening)

  class CoffeeCounter {
    /** `coffee_invocations`. */
    var invocations: seq<real>

    /** The module starts with an empty list. */
    constructor()
      ensures invocations == []
    {
      invocations := [];
    }

    /** The filtering comprehension, element by element. */
    method RecentCalls(now: real) returns (kept: seq<real>)
      ensures kept == Recent(invocations, now)
    {
      kept := [];
      var i := 0;
      while i < |invocations|
        invariant 0 <= i <= |invocations|
        invariant kept == Recent(invocations[..i], now)
      {
        assert invocations[..i + 1][..i] == invocations[..i];
        if now - invocations[i] < Window {
          kept := kept + [invocations[i]];
        }
        i := i + 1;
      }
      assert invocations[..i] == invocations;
    }

    /**
     * `coffee_command` in chat `chatId`. The call is recorded before anything
     * else; the special picture goes out without the chat check, the coffee
     * picture only through it.
     */
    method Command(now: real, allowed: seq<int>, chatId: int) returns (reply: Reply)
      modifies this
      ensures var tick := Step(old(invocations), now);
        && invocations == tick.kept
        && (reply == if tick.special then Special else Screened(CheckChat(allowed, chatId)))
      ensures |invocations| <= 1
    {
      var kept := RecentCalls(now);
      invocations := kept + [now];
      if |invocations| >= 2 {
        invocations := [];
        reply := Special;
        return;
      }
      reply := Screened(CheckChat(allowed, chatId));
    }
  }
}
