/**
 The `gameOver` flag of the level generator and the two callbacks that touch
 it. `Update` runs every frame and ends the game when the player has fallen
 below `gameOverHeight`, but only while the flag is clear; `OnTriggerEnter`
 ends it whenever the entering collider is the game-over platform, without
 looking at the flag. Ending the game means setting the flag and requesting the
 "GameOverScene" scene. The height comparison and the collider identity test
 are boolean inputs.
 */
module GameOver {

  /** A callback with its one relevant input. */
  datatype Event =
    | Tick(fell: bool)               // `Update`: is the player below `gameOverHeight`?
    | TriggerEnter(platform: bool)   // `OnTriggerEnter`: is `other` the game-over platform's collider?

  /** The flag after a callback, and whether the callback requested the game-over scene. */
  datatype Reaction = Reaction(gameOver: bool, loadScene: bool)

  /** `Update`. */
  function Update(gameOver: bool, fell: bool): (r: Reaction)
    ensures r.loadScene <==> !gameOver && fell
    ensures r.gameOver <==> gameOver || fell
    ensures gameOver ==> r == Reaction(true, false)
    ensures !r.loadScene ==> r.gameOver == gameOver
  {
    if !gameOver && fell then Reaction(true, true) else Reaction(gameOver, false)
  }

  /** `OnTriggerEnter`: the flag is set but never consulted. */
  function OnTriggerEnter(gameOver: bool, platform: bool): (r: Reaction)
    ensures r.loadScene <==> platform
    ensures r.gameOver <==> gameOver || platform
  {
    if platform then Reaction(true, true) else Reaction(gameOver, false)
  }

  /** The callback `e` applied to the flag: the flag is set exactly when it was set or `e` ends the game, and
      the scene is requested only by an event that ends the game, by a frame only while the flag is clear. */
  function React(gameOver: bool, e: Event): (r: Reaction)
    ensures r.gameOver <==> gameOver || Ends(e)
    ensures r.loadScene <==> Ends(e) && (e.TriggerEnter? || !gameOver)
    ensures r.loadScene ==> r.gameOver
  {
    match e
    case Tick(fell) => Update(gameOver, fell)
    case TriggerEnter(platform) => OnTriggerEnter(gameOver, platform)
  }

  /** An event that ends the game if the flag is clear. */
  predicate Ends(e: Event) {
    match e
    case Tick(fell) => fell
    case TriggerEnter(platform) => platform
  }

  /** The final flag and the number of scene requests after feeding `events` to the callbacks in order. */
  function Run(gameOver: bool, events: seq<Event>): (r: (bool, nat))
    ensures gameOver ==> r.0
    ensures r.1 > 0 ==> r.0
    decreases |events|
  {
    if |events| == 0 then (gameOver, 0)
    else
      var step := React(gameOver, events[0]);
      var rest := Run(step.gameOver, events[1..]);
      (rest.0, rest.1 + (if step.loadScene then 1 else 0))
  }

  /** Number of platform contacts among `events`. */
  function PlatformContacts(events: seq<Event>): nat {
    if |events| == 0 then 0
    else (if events[0] == TriggerEnter(true) then 1 else 0) + PlatformContacts(events[1..])
  }

  /** The first event that ends the game is a fall detected by `Update`. */
  ghost predicate FallComesFirst(events: seq<Event>) {
    exists i :: 0 <= i < |events| && events[i] == Tick(true) && forall j :: 0 <= j < i ==> !Ends(events[j])
  }

  // ---------------------------------------------------------------- lemmas

  /** The flag ends up set exactly when it started set or some event ended the game. */
  lemma {:induction false} FlagSetIffSomeEventEnds(gameOver: bool, events: seq<Event>)
    ensures Run(gameOver, events).0 <==> gameOver || exists i :: 0 <= i < |events| && Ends(events[i])
    decreases |events|
  {
    if |events| > 0 {
      FlagSetIffSomeEventEnds(React(gameOver, events[0]).gameOver, events[1..]);
      if exists i :: 0 <= i < |events| && Ends(events[i]) {
        var i :| 0 <= i < |events| && Ends(events[i]);
        if i > 0 {
          assert Ends(events[1..][i - 1]);
        }
      }
      if exists i :: 0 <= i < |events[1..]| && Ends(events[1..][i]) {
        var i :| 0 <= i < |events[1..]| && Ends(events[1..][i]);
        assert Ends(events[i + 1]);
      }
    }
  }

  /** Once the flag is set, frames never request the scene again. */
  lemma {:induction false} NoFrameRequestAfterGameOver(events: seq<Event>)
    requires forall i :: 0 <= i < |events| ==> events[i].Tick?
    ensures Run(true, events) == (true, 0)
    decreases |events|
  {
    if |events| > 0 {
      NoFrameRequestAfterGameOver(events[1..]);
    }
  }

  /** However many frames run, `Update` requests the game-over scene at most once, and exactly once when the
      flag starts clear and some frame sees the fall. */
  lemma {:induction false} FramesRequestAtMostOnce(gameOver: bool, events: seq<Event>)
    requires forall i :: 0 <= i < |events| ==> events[i].Tick?
    ensures Run(gameOver, events).1 <= 1
    ensures Run(gameOver, events).1 == 1 <==> !gameOver && exists i :: 0 <= i < |events| && events[i].fell
    decreases |events|
  {
    if |events| > 0 {
      var step := React(gameOver, events[0]);
      if step.loadScene {
        NoFrameRequestAfterGameOver(events[1..]);
      } else {
        FramesRequestAtMostOnce(step.gameOver, events[1..]);
        if exists i :: 0 <= i < |events[1..]| && events[1..][i].fell {
          var i :| 0 <= i < |events[1..]| && events[1..][i].fell;
          assert events[i + 1].fell;
        }
        if exists i :: 0 <= i < |events| && events[i].fell {
          var i :| 0 <= i < |events| && events[i].fell;
          if !gameOver {
            assert i > 0 && events[1..][i - 1].fell;
          }
        }
      }
    }
  }

  /** Every platform contact requests the scene, whatever the flag; a frame requests it only if it is the
      first event to end the game and the flag started clear. */
  lemma {:induction false} RequestCount(gameOver: bool, events: seq<Event>)
    ensures Run(gameOver, events).1 == PlatformContacts(events) + (if !gameOver && FallComesFirst(events) then 1 else 0)
    decreases |events|
  {
    if |events| > 0 {
      var e := events[0];
      var step := React(gameOver, e);
      RequestCount(step.gameOver, events[1..]);
      if !gameOver {
        if Ends(e) {
          if e == Tick(true) {
            assert FallComesFirst(events) by {
              assert events[0] == Tick(true);
            }
          } else {
            NoFallFirstAfterContact(events);
          }
        } else {
          FallFirstShift(events);
        }
      }
    }
  }

  lemma NoFallFirstAfterContact(events: seq<Event>)
    requires |events| > 0 && events[0] == TriggerEnter(true)
    ensures !FallComesFirst(events)
  {
    forall i | 0 <= i < |events| && events[i] == Tick(true)
      ensures exists j :: 0 <= j < i && Ends(events[j])
    {
      assert Ends(events[0]);
    }
  }

  lemma FallFirstShift(events: seq<Event>)
    requires |events| > 0 && !Ends(events[0])
    ensures FallComesFirst(events) <==> FallComesFirst(events[1..])
  {
    var tail := events[1..];
    if FallComesFirst(events) {
      var i :| 0 <= i < |events| && events[i] == Tick(true) && forall j :: 0 <= j < i ==> !Ends(events[j]);
      assert i > 0;
      assert tail[i - 1] == Tick(true);
      assert forall j :: 0 <= j < i - 1 ==> !Ends(tail[j]) by {
        forall j | 0 <= j < i - 1 ensures !Ends(tail[j]) {
          assert tail[j] == events[j + 1];
        }
      }
    }
    if FallComesFirst(tail) {
      var i :| 0 <= i < |tail| && tail[i] == Tick(true) && forall j :: 0 <= j < i ==> !Ends(tail[j]);
      assert events[i + 1] == Tick(true);
      forall j | 0 <= j < i + 1 ensures !Ends(events[j]) {
        if j > 0 {
          assert events[j] == tail[j - 1];
        }
      }
    }
  }

  /** Platform contacts after the game has ended still request the scene: two contacts, two requests. */
  lemma ContactIgnoresFlag()
    ensures Run(true, [TriggerEnter(true), TriggerEnter(true)]) == (true, 2)
  {
  }
}
