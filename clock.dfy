/** The chess clock: the once-a-second tick that charges the side to move,
    and the m:ss rendering of a time in seconds. */
module Clock {
  import opened Basics
  import opened Pieces

  datatype ClockState = ClockState(whiteTime: int, blackTime: int, activePlayer: Color, gameInProgress: bool)

  function TimeOf(s: ClockState, c: Color): int {
    if c == White then s.whiteTime else s.blackTime
  }

  /** One `updateClock` tick. `gameOver` stands for the rules engine's
      `game.game_over()`. A stopped clock or a finished game leaves every
      field alone; otherwise only the active player's time moves, down by
      one second and never below zero, and reaching zero stops the game. */
  function Tick(s: ClockState, gameOver: bool): (t: ClockState)
    ensures !s.gameInProgress || gameOver ==> t == s
    ensures t.activePlayer == s.activePlayer
    ensures TimeOf(t, Opposite(s.activePlayer)) == TimeOf(s, Opposite(s.activePlayer))
    ensures s.gameInProgress && !gameOver ==>
              && TimeOf(t, s.activePlayer) == Max(TimeOf(s, s.activePlayer) - 1, 0)
              && (t.gameInProgress <==> TimeOf(t, s.activePlayer) > 0)
  {
    if !s.gameInProgress || gameOver then s
    else if s.activePlayer == White then
      var whiteTime := s.whiteTime - 1;
      if whiteTime <= 0 then s.(whiteTime := 0, gameInProgress := false) else s.(whiteTime := whiteTime)
    else
      var blackTime := s.blackTime - 1;
      if blackTime <= 0 then s.(blackTime := 0, gameInProgress := false) else s.(blackTime := blackTime)
  }

  /** `n` ticks of a game that the rules engine never reports over. */
  function Ticks(s: ClockState, n: nat): ClockState {
    if n == 0 then s else Tick(Ticks(s, n - 1), false)
  }

  /** With `t` seconds left on the running side's clock, the game goes on
      for t - 1 ticks, stops on the t-th with that clock at zero, and then
      stays stopped; the other clock never moves. */
  lemma {:induction false} FlagFallsAfterRemainingTime(s: ClockState, n: nat)
    requires s.gameInProgress && TimeOf(s, s.activePlayer) >= 1
    ensures var u := Ticks(s, n);
            var t := TimeOf(s, s.activePlayer);
            && u.activePlayer == s.activePlayer
            && TimeOf(u, Opposite(s.activePlayer)) == TimeOf(s, Opposite(s.activePlayer))
            && (n < t ==> u.gameInProgress && TimeOf(u, s.activePlayer) == t - n)
            && (n >= t ==> !u.gameInProgress && TimeOf(u, s.activePlayer) == 0)
  {
    if n > 0 {
      FlagFallsAfterRemainingTime(s, n - 1);
    }
  }

  /** The clock globals `whiteTime`, `blackTime`, `activePlayer` and
      `gameInProgress`. */
  class ChessClock {
    var whiteTime: int
    var blackTime: int
    var activePlayer: Color
    var gameInProgress: bool

    function State(): ClockState
      reads this
    {
      ClockState(whiteTime, blackTime, activePlayer, gameInProgress)
    }

    /** The clock as `newGame` sets it: both sides get the chosen time
        control, White to move, game running. */
    constructor (timeControl: int)
      ensures State() == ClockState(timeControl, timeControl, White, true)
    {
      whiteTime := timeControl;
      blackTime := timeControl;
      activePlayer := White;
      gameInProgress := true;
    }

    /** `updateClock`, without the display and the interval timer. */
    method UpdateClock(gameOver: bool)
      modifies this
      ensures State() == Tick(old(State()), gameOver)
    {
      if !gameInProgress || gameOver {
        return;
      }
      if activePlayer == White {
        whiteTime := whiteTime - 1;
        if whiteTime <= 0 {
          whiteTime := 0;
          gameInProgress := false;
        }
      } else {
        blackTime := blackTime - 1;
        if blackTime <= 0 {
          blackTime := 0;
          gameInProgress := false;
        }
      }
    }
  }

  // Rendering a time as the clock shows it.

  predicate IsDigit(ch: char) { '0' <= ch <= '9' }

  function DigitChar(d: int): (ch: char)
    requires 0 <= d < 10
    ensures IsDigit(ch)
  {
    ('0' as int + d) as char
  }

  function DigitValue(ch: char): int
    requires IsDigit(ch)
  {
    ch as int - '0' as int
  }

  /** The decimal digits of n, most significant first, as JavaScript writes a
      non-negative integer. */
  function NatToString(n: nat): (s: string)
    ensures |s| >= 1 && forall k :: 0 <= k < |s| ==> IsDigit(s[k])
  {
    if n < 10 then [DigitChar(n)] else NatToString(n / 10) + [DigitChar(n % 10)]
  }

  /** JavaScript's rendering of an integer. */
  function IntToString(n: int): string {
    if n < 0 then "-" + NatToString(-n) else NatToString(n)
  }

  /** Division rounded toward zero, the quotient that goes with JavaScript's
      remainder. */
  function TruncatedQuotient(a: int, n: int): int
    requires n > 0
  {
    if a >= 0 then a / n else -((-a) / n)
  }

  /** JavaScript's `%` on integers: the remainder takes the sign of the
      dividend. */
  function JsRemainder(a: int, n: int): (r: int)
    requires n > 0
    ensures a >= 0 ==> 0 <= r < n
    ensures a < 0 ==> -n < r <= 0
    ensures a == n * TruncatedQuotient(a, n) + r
  {
    if a >= 0 then a % n else -((-a) % n)
  }

  /** `formatTime`: minutes (rounded down), a colon, and the seconds padded
      to two digits when below ten. */
  function FormatTime(seconds: int): (t: string)
    ensures seconds >= 0 ==> t == NatToString(seconds / 60) + ":" + [DigitChar(seconds % 60 / 10), DigitChar(seconds % 60 % 10)]
  {
    var mins := seconds / 60;
    var secs := JsRemainder(seconds, 60);
    PaddedSeconds(secs);
    IntToString(mins) + ":" + (if secs < 10 then "0" else "") + IntToString(secs)
  }

  lemma PaddedSeconds(secs: int)
    ensures 0 <= secs < 60 ==>
              (if secs < 10 then "0" else "") + IntToString(secs) == [DigitChar(secs / 10), DigitChar(secs % 10)]
  {
    if 10 <= secs < 60 {
      assert NatToString(secs) == NatToString(secs / 10) + [DigitChar(secs % 10)];
    }
  }

  /** The value of a string of decimal digits. */
  function DigitsValue(s: string): nat
    requires forall k :: 0 <= k < |s| ==> IsDigit(s[k])
  {
    if s == [] then 0 else 10 * DigitsValue(s[..|s| - 1]) + DigitValue(s[|s| - 1])
  }

  /** Reading an m:ss display back as a number of seconds. */
  function ParseTime(t: string): Option<nat> {
    var n := |t|;
    if n < 4 || t[n - 3] != ':' || !IsDigit(t[n - 2]) || !IsDigit(t[n - 1]) then None
    else if !(forall k :: 0 <= k < n - 3 ==> IsDigit(t[k])) then None
    else
      var secs := 10 * DigitValue(t[n - 2]) + DigitValue(t[n - 1]);
      if secs >= 60 then None else Some(DigitsValue(t[..n - 3]) * 60 + secs)
  }

  lemma {:induction false} DigitsOfNat(n: nat)
    ensures DigitsValue(NatToString(n)) == n
  {
    if n >= 10 {
      var s := NatToString(n);
      assert s[..|s| - 1] == NatToString(n / 10);
      DigitsOfNat(n / 10);
    }
  }

  /** For a non-negative time the display is minutes, a colon and exactly
      two digits of seconds below 60, and it reads back to the same time. */
  lemma FormatTimeRoundTrip(seconds: int)
    requires seconds >= 0
    ensures ParseTime(FormatTime(seconds)) == Some(seconds)
  {
    var t := FormatTime(seconds);
    var m := NatToString(seconds / 60);
    assert t[..|t| - 3] == m;
    DigitsOfNat(seconds / 60);
  }
}
