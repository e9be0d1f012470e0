/**
 * The stage and lives state machine of the game (`src/game/mod.rs`): a
 * frame handles the released keys, chooses the bat's direction, and runs
 * the fixed-step simulation up to the frame's time. Time is counted in
 * whole hundredths of a second, so the simulation step `epsilon` is one
 * unit; the ball's flight is not modelled, and what `update_ball` reports
 * at each step is given.
 */
module Game {

  import opened Events

  datatype GameStage = Gameplay | GameOver | ScoreBoard

  /** The key codes the game tells apart; every other code is `OtherKey`. */
  datatype KeyCode = Space | Enter | ArrowLeft | ArrowRight | OtherKey

  datatype InputEvent = KeyDown(code: KeyCode) | KeyUp(code: KeyCode) | MouseMove

  /** The simulation step, `epsilon = 0.01` seconds. */
  const Epsilon: int := 1
  /** `GAME_OVER_PAUSE_TIME`, two seconds. */
  const GameOverPause: int := 200
  const StartScore: int := 4001
  const StartLives: nat := 1
  /** Touches left of this client x coordinate steer the bat left. */
  const TouchSplit: real := 500.0

  /** What `update_ball` reports for one step. */
  datatype BallStatus = BallStatus(brickHitCount: nat, outOfArena: bool)

  /**
   * The part of `GameState` the model follows. `batInput` is the x part of
   * `bat.input` (its y part is always 0); `ballResets` counts the calls of
   * `reset_position` on the current ball and `rowResets` those of
   * `reset_last_row` on the current bricks.
   */
  datatype State = State(stage: GameStage, lives: nat, score: int, lastTime: int, simTime: int,
                         realTime: int, gameOverTime: int, batInput: int, ballResets: nat, rowResets: nat)

  function Max(a: int, b: int): int {
    if a < b then b else a
  }

  /** `init(canvas_size, time)`: a new ball placed once, new bricks, and `GameState::new`. */
  function NewGame(time: int): (s: State)
    ensures s.stage == Gameplay && s.lives == 1 && s.score == 4001 && s.lastTime == time
    ensures s.ballResets == 1 && s.rowResets == 0 && s.batInput == 0
  {
    State(Gameplay, StartLives, StartScore, time, 0, 0, 0, 0, 1, 0)
  }

  /**
   * `decrease_lives`: the count saturates at 0. While lives remain the ball
   * is put back; at 0 the game is over from the frame's real time on.
   */
  function LoseLife(s: State, realTime: int): (r: State)
    ensures r.lives == if s.lives > 0 then s.lives - 1 else 0
    ensures r.lives != 0 ==> r.stage == s.stage && r.ballResets == s.ballResets + 1 && r.gameOverTime == s.gameOverTime
    ensures r.lives == 0 ==> r.stage == GameOver && r.gameOverTime == realTime && r.ballResets == s.ballResets
    ensures r.score == s.score && r.lastTime == s.lastTime && r.simTime == s.simTime && r.realTime == s.realTime
    ensures r.batInput == s.batInput && r.rowResets == s.rowResets
  {
    var lives := Max(s.lives, 1) - 1;
    if lives != 0 then s.(lives := lives, ballResets := s.ballResets + 1)
    else s.(lives := lives, stage := GameOver, gameOverTime := realTime)
  }

  /** A released key: Space resets the last brick row, Enter in ScoreBoard starts a new game. */
  function KeyUpOf(s: State, code: KeyCode, time: int): (r: State)
    ensures r == NewGame(time) || (r.(rowResets := s.rowResets) == s && r.rowResets >= s.rowResets)
    ensures r.stage != s.stage ==> s.stage == ScoreBoard && r == NewGame(time)
  {
    match code
    case Space => s.(rowResets := s.rowResets + 1)
    case Enter => if s.stage == ScoreBoard then NewGame(time) else s
    case _ => s
  }

  /** The loop over the frame's input events; pressed keys and mouse moves change nothing. */
  function KeysOf(s: State, events: seq<InputEvent>, time: int): (r: State)
    ensures r.stage == s.stage || r.stage == Gameplay
    ensures s.stage != ScoreBoard ==> r.(rowResets := s.rowResets) == s && r.rowResets >= s.rowResets
    decreases |events|
  {
    if events == [] then s
    else
      var next := match events[0] case KeyUp(code) => KeyUpOf(s, code, time) case _ => s;
      KeysOf(next, events[1..], time)
  }

  /**
   * The bat's direction: the left arrow wins, then the right arrow; with
   * neither, the last tracked touch decides, and with no touch the bat stays.
   */
  function BatDirection(left: bool, right: bool, touches: seq<Touch>): (d: int)
    ensures d == -1 || d == 0 || d == 1
    ensures left ==> d == -1
    ensures !left && right ==> d == 1
    ensures d == 0 <==> !left && !right && touches == []
    ensures !left && !right && touches != [] ==> (d == -1 <==> touches[|touches| - 1].clientX < TouchSplit)
  {
    if left then -1
    else if right then 1
    else if touches == [] then 0
    else TouchDirection(touches[|touches| - 1])
  }

  function TouchDirection(t: Touch): (d: int)
    ensures d == -1 || d == 1
    ensures d == -1 <==> t.clientX < TouchSplit
  {
    if t.clientX < TouchSplit then -1 else 1
  }

  /** The body of the fixed-step loop, given what the ball reports. */
  function StepOf(s: State, status: BallStatus): (r: State)
    ensures s.stage == GameOver ==> (r.stage == ScoreBoard <==> s.realTime - s.gameOverTime > GameOverPause)
    ensures s.stage == ScoreBoard ==> r.stage == ScoreBoard && r.score == s.score && r.lives == s.lives
    ensures s.stage != Gameplay ==> r.score == s.score
    ensures s.stage == Gameplay ==> r.score == s.score + status.brickHitCount
    ensures s.stage == Gameplay && !status.outOfArena ==> r.stage == Gameplay && r.lives == s.lives
    ensures r.simTime == s.simTime + Epsilon && r.realTime == s.realTime && r.lastTime == s.lastTime
  {
    var s1 := s.(simTime := s.simTime + Epsilon);
    match s.stage
    case Gameplay =>
      var s2 := s1.(score := s1.score + status.brickHitCount);
      if status.outOfArena then LoseLife(s2, s.realTime) else s2
    case GameOver =>
      if s.realTime - s.gameOverTime > GameOverPause then s1.(stage := ScoreBoard) else s1
    case ScoreBoard => s1
  }

  /** `n` steps, the ball reporting `ball(k)` at step `k`. */
  function Steps(s: State, ball: nat -> BallStatus, n: nat): (r: State)
    ensures r.realTime == s.realTime && r.lastTime == s.lastTime && r.simTime == s.simTime + n * Epsilon
    decreases n
  {
    if n == 0 then s else StepOf(Steps(s, ball, n - 1), ball(n - 1))
  }

  /** How many steps the loop runs from `lastTime` to `time`: while more than one step is left. */
  function StepCount(lastTime: int, time: int): (n: nat)
    ensures time - lastTime > Epsilon ==> lastTime + n == time - Epsilon
    ensures time - lastTime <= Epsilon ==> n == 0
  {
    if time - lastTime > Epsilon then time - lastTime - Epsilon else 0
  }

  /** The simulation part of the frame: catch up with `time`, one step at a time. */
  function Simulated(s: State, time: int, ball: nat -> BallStatus): (r: State)
    ensures r.realTime == time
    ensures r.lastTime == s.lastTime + StepCount(s.lastTime, time)
  {
    var n := StepCount(s.lastTime, time);
    Steps(s.(realTime := time), ball, n).(lastTime := s.lastTime + n)
  }

  /**
   * A whole frame. `left` and `right` are the keyboard state's answers for
   * the arrows and `touches` the tracker's touches, both after their own
   * updates of this frame.
   */
  function Frame(s: State, events: seq<InputEvent>, left: bool, right: bool, touches: seq<Touch>,
                 time: int, ball: nat -> BallStatus): (r: State)
    ensures r.realTime == time
    ensures r.lastTime == Max(KeysOf(s, events, time).lastTime, time - Epsilon)
  {
    var keyed := KeysOf(s, events, time);
    Simulated(keyed.(batInput := BatDirection(left, right, touches)), time, ball)
  }

  /** The game. */
  class GameState {
    var stage: GameStage
    var lives: nat
    var score: int
    var lastTime: int
    var simTime: int
    var realTime: int
    var gameOverTime: int
    var batInput: int
    var ballResets: nat
    var rowResets: nat

    function Snapshot(): State
      reads this
    {
      State(stage, lives, score, lastTime, simTime, realTime, gameOverTime, batInput, ballResets, rowResets)
    }

    /** `init(canvas_size, time)`. */
    constructor (time: int)
      ensures Snapshot() == NewGame(time)
      ensures Consistent(Snapshot())
    {
      stage, lives, score, lastTime := Gameplay, StartLives, StartScore, time;
      simTime, realTime, gameOverTime := 0, 0, 0;
      batInput, ballResets, rowResets := 0, 1, 0;
    }

    /** `*game_state = init(canvas_size, time)`. */
    method Restart(time: int)
      modifies this
      ensures Snapshot() == NewGame(time)
    {
      stage, lives, score, lastTime := Gameplay, StartLives, StartScore, time;
      simTime, realTime, gameOverTime := 0, 0, 0;
      batInput, ballResets, rowResets := 0, 1, 0;
    }

    /** `decrease_lives`, with the frame's real time. */
    method DecreaseLives()
      modifies this
      ensures Snapshot() == LoseLife(old(Snapshot()), old(realTime))
    {
      lives := Max(lives, 1) - 1;
      if lives != 0 {
        ballResets := ballResets + 1;
      } else {
        stage := GameOver;
        gameOverTime := realTime;
      }
    }

    /** The loop over the input events. */
    method HandleEvents(events: seq<InputEvent>, time: int)
      modifies this
      ensures Snapshot() == KeysOf(old(Snapshot()), events, time)
    {
      ghost var s0 := Snapshot();
      for k := 0 to |events|
        invariant KeysOf(s0, events, time) == KeysOf(Snapshot(), events[k..], time)
      {
        assert events[k..][0] == events[k] && events[k..][1..] == events[k + 1..];
        match events[k] {
          case KeyUp(code) =>
            match code {
              case Space => rowResets := rowResets + 1;
              case Enter =>
                if stage == ScoreBoard {
                  Restart(time);
                }
              case _ =>
            }
          case _ =>
        }
      }
    }

    /** The choice of the bat's direction: zeroed, then the arrows, or else each tracked touch in turn. */
    method SetBatInput(left: bool, right: bool, touches: seq<Touch>)
      modifies this
      ensures Snapshot() == old(Snapshot()).(batInput := BatDirection(left, right, touches))
    {
      batInput := 0;
      if left || right {
        if left {
          batInput := -1;
        } else {
          batInput := 1;
        }
      } else {
        for k := 0 to |touches|
          invariant batInput == BatDirection(false, false, touches[..k])
          invariant Snapshot() == old(Snapshot()).(batInput := batInput)
        {
          assert touches[..k + 1][k] == touches[k];
          if touches[k].clientX < TouchSplit {
            batInput := -1;
          } else {
            batInput := 1;
          }
        }
        assert touches[..|touches|] == touches;
      }
    }

    /** The fixed-step loop: one step per `epsilon` while more than `epsilon` separates it from `time`. */
    method Simulate(time: int, ball: nat -> BallStatus)
      modifies this
      ensures Snapshot() == Simulated(old(Snapshot()), time, ball)
    {
      var current := lastTime;
      realTime := time;
      ghost var s0 := Snapshot();
      var k: nat := 0;
      while Epsilon < time - current
        invariant current == lastTime + k && lastTime == old(lastTime)
        invariant k == 0 || current <= time - Epsilon
        invariant Snapshot() == Steps(s0, ball, k)
        decreases time - current
      {
        Step(ball(k));
        current := current + Epsilon;
        k := k + 1;
      }
      assert k == StepCount(old(lastTime), time);
      lastTime := current;
    }

    /** The body of the fixed-step loop; `status` is what `update_ball` reports, and it is asked only in Gameplay. */
    method Step(status: BallStatus)
      modifies this
      ensures Snapshot() == StepOf(old(Snapshot()), status)
    {
      simTime := simTime + Epsilon;
      match stage {
        case Gameplay =>
          score := score + status.brickHitCount;
          if status.outOfArena {
            DecreaseLives();
          }
        case GameOver =>
          if realTime - gameOverTime > GameOverPause {
            stage := ScoreBoard;
          }
        case ScoreBoard =>
      }
    }

    /** `update`: the events, then the bat, then the simulation. */
    method Update(events: seq<InputEvent>, left: bool, right: bool, touches: seq<Touch>,
                  time: int, ball: nat -> BallStatus)
      modifies this
      ensures Snapshot() == Frame(old(Snapshot()), events, left, right, touches, time, ball)
      ensures Consistent(old(Snapshot())) ==> Consistent(Snapshot())
    {
      ghost var s0 := Snapshot();
      HandleEvents(events, time);
      SetBatInput(left, right, touches);
      Simulate(time, ball);
      if Consistent(s0) {
        FrameKeepsConsistent(s0, events, left, right, touches, time, ball);
      }
    }
  }

  // ---------------------------------------------------------------------
  // Properties of the state machine
  // ---------------------------------------------------------------------

  /**
   * The lives invariant: a game has at most its starting life, and it is
   * in Gameplay exactly when that life is left.
   */
  predicate Consistent(s: State) {
    s.lives <= StartLives && (s.stage == Gameplay <==> s.lives == StartLives)
  }

  lemma StepKeepsConsistent(s: State, status: BallStatus)
    requires Consistent(s)
    ensures Consistent(StepOf(s, status))
  {
  }

  lemma {:induction false} StepsKeepConsistent(s: State, ball: nat -> BallStatus, n: nat)
    requires Consistent(s)
    ensures Consistent(Steps(s, ball, n))
    decreases n
  {
    if n > 0 {
      StepsKeepConsistent(s, ball, n - 1);
      StepKeepsConsistent(Steps(s, ball, n - 1), ball(n - 1));
    }
  }

  lemma {:induction false} KeysKeepConsistent(s: State, events: seq<InputEvent>, time: int)
    requires Consistent(s)
    ensures Consistent(KeysOf(s, events, time))
    decreases |events|
  {
    if events != [] {
      var next := match events[0] case KeyUp(code) => KeyUpOf(s, code, time) case _ => s;
      assert Consistent(next);
      KeysKeepConsistent(next, events[1..], time);
    }
  }

  /** Every frame keeps the lives invariant. */
  lemma FrameKeepsConsistent(s: State, events: seq<InputEvent>, left: bool, right: bool, touches: seq<Touch>,
                             time: int, ball: nat -> BallStatus)
    requires Consistent(s)
    ensures Consistent(Frame(s, events, left, right, touches, time, ball))
  {
    var keyed := KeysOf(s, events, time);
    KeysKeepConsistent(s, events, time);
    var b := keyed.(batInput := BatDirection(left, right, touches));
    StepsKeepConsistent(b.(realTime := time), ball, StepCount(b.lastTime, time));
  }

  /** With a single life, the first ball lost ends the game: the ball is never put back. */
  lemma FirstLossEndsGame(s: State, status: BallStatus)
    requires Consistent(s) && s.stage == Gameplay && status.outOfArena
    ensures var r := StepOf(s, status);
            r.stage == GameOver && r.lives == 0 && r.gameOverTime == s.realTime && r.ballResets == s.ballResets
  {
  }

  /** The stage that follows each one in the cycle. */
  function NextStage(st: GameStage): GameStage {
    match st
    case Gameplay => GameOver
    case GameOver => ScoreBoard
    case ScoreBoard => Gameplay
  }

  /** A step either keeps the stage or moves it on; it never leaves ScoreBoard. */
  lemma StepFollowsCycle(s: State, status: BallStatus)
    ensures var r := StepOf(s, status);
            r.stage == s.stage || (s.stage != ScoreBoard && r.stage == NextStage(s.stage))
  {
  }

  /** A released key either keeps the stage or moves ScoreBoard on to Gameplay. */
  lemma KeyUpFollowsCycle(s: State, code: KeyCode, time: int)
    ensures var r := KeyUpOf(s, code, time);
            r.stage == s.stage || (s.stage == ScoreBoard && r.stage == NextStage(s.stage))
  {
  }

  /** Space changes nothing but the row reset count; Enter in ScoreBoard starts a new game; any other key changes nothing. */
  lemma KeyUpEffects(s: State, code: KeyCode, time: int)
    ensures code == Space ==> KeyUpOf(s, code, time).rowResets == s.rowResets + 1
                              && KeyUpOf(s, code, time).(rowResets := s.rowResets) == s
    ensures code == Enter && s.stage == ScoreBoard ==> KeyUpOf(s, code, time) == NewGame(time)
    ensures code != Space && !(code == Enter && s.stage == ScoreBoard) ==> KeyUpOf(s, code, time) == s
  {
  }

  /** Position in the cycle, from Gameplay on. */
  function StageRank(st: GameStage): nat {
    match st
    case Gameplay => 0
    case GameOver => 1
    case ScoreBoard => 2
  }

  /** Within a frame's simulation the stage only moves forward, and the score never drops. */
  lemma {:induction false} StepsMoveForward(s: State, ball: nat -> BallStatus, n: nat)
    ensures StageRank(s.stage) <= StageRank(Steps(s, ball, n).stage)
    ensures s.score <= Steps(s, ball, n).score
    ensures s.stage != Gameplay ==> Steps(s, ball, n).score == s.score
    decreases n
  {
    if n > 0 {
      StepsMoveForward(s, ball, n - 1);
      StepFollowsCycle(Steps(s, ball, n - 1), ball(n - 1));
    }
  }

  /** The bricks hit over the first `n` steps. */
  function SumHits(ball: nat -> BallStatus, n: nat): nat
    decreases n
  {
    if n == 0 then 0 else SumHits(ball, n - 1) + ball(n - 1).brickHitCount
  }

  /** While no ball is lost, the game stays in Gameplay and every brick hit adds one to the score. */
  lemma {:induction false} ScoreAccumulates(s: State, ball: nat -> BallStatus, n: nat)
    requires s.stage == Gameplay && forall k :: 0 <= k < n ==> !ball(k).outOfArena
    ensures Steps(s, ball, n).stage == Gameplay && Steps(s, ball, n).lives == s.lives
    ensures Steps(s, ball, n).score == s.score + SumHits(ball, n)
    decreases n
  {
    if n > 0 {
      ScoreAccumulates(s, ball, n - 1);
    }
  }

  /**
   * A frame's keys either leave the game as it was, but for the brick row,
   * or, starting from ScoreBoard, restart it at the frame's time.
   */
  lemma {:induction false} KeysRestartOnlyFromScoreBoard(s: State, events: seq<InputEvent>, time: int)
    ensures var r := KeysOf(s, events, time);
            r.(rowResets := 0) == s.(rowResets := 0)
            || (s.stage == ScoreBoard && r.(rowResets := 0) == NewGame(time))
    decreases |events|
  {
    if events != [] {
      var next := match events[0] case KeyUp(code) => KeyUpOf(s, code, time) case _ => s;
      KeysRestartOnlyFromScoreBoard(next, events[1..], time);
      if next.(rowResets := 0) != s.(rowResets := 0) {
        assert next == NewGame(time) && s.stage == ScoreBoard;
        KeysRestartOnlyFromScoreBoard(next, events[1..], time);
      }
    }
  }
}
