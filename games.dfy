/*
  bot.js: the `!mg` mini-game, a per-channel progress counter moved by random
  amounts, and the check `!roll` applies to its single-number form.

  `Math.random()` is the parameter `rand`, a real number in [0, 1); the
  progress map lives in memory only, so a restart starts with no game.
*/
module Games {
  import opened Wrappers
  import opened Text
  import opened Chat

  // ---------------------------------------------------------------- random amounts

  /**
    `Math.floor(Math.random() * max) + 1`: a whole number from 1 to `max`
    for any `rand` that `Math.random` can return.
   */
  function Roll(rand: real, max: int): (r: int)
    requires 0.0 <= rand < 1.0 && max >= 1
    ensures 1 <= r <= max
  {
    RandomScaled(rand, max);
    (rand * max as real).Floor + 1
  }

  lemma RandomScaled(rand: real, max: int)
    requires 0.0 <= rand < 1.0 && max >= 1
    ensures 0.0 <= rand * max as real < max as real
  {
    var m := max as real;
    assert m - rand * m == (1.0 - rand) * m;
    assert (1.0 - rand) * m > 0.0;
  }

  /** Every amount from 1 to `max` is the roll of some value of `Math.random()`. */
  lemma RollReaches(max: int, k: int)
    requires 1 <= k <= max
    ensures 0.0 <= (k - 1) as real / max as real < 1.0
    ensures Roll((k - 1) as real / max as real, max) == k
  {
    var m := max as real;
    var rand := (k - 1) as real / m;
    assert rand * m == (k - 1) as real;
  }

  /**
    `parseInt(args[1])` followed by the check `isNaN(n) || n <= 0`: the
    largest amount a `prog` or `decr` may move the counter, when there is one.
   */
  function MaxAmount(arg: Option<string>): (r: Option<int>)
    ensures r.Some? <==> arg.Some? && ParseInt(arg.value).Some? && ParseInt(arg.value).value > 0
    ensures r.Some? ==> r.value > 0 && r.value == ParseInt(arg.value).value
  {
    if arg.None? then None
    else match ParseInt(arg.value)
      case None => None
      case Some(n) => if n <= 0 then None else Some(n)
  }

  /** The number the bot writes back in its replies is read back as the same amount. */
  lemma MaxAmountOfNumber(n: nat)
    requires n > 0
    ensures MaxAmount(Some(ShowNat(n))) == Some(n)
  {
    ParseShowNat(n, "");
    assert ShowNat(n) + "" == ShowNat(n);
  }

  // ---------------------------------------------------------------- !mg

  /** `args[1]`, the amount word; `undefined` (here `None`) when the command has none. */
  function AmountArg(args: seq<string>): (r: Option<string>)
    ensures r.Some? <==> |args| > 1
    ensures r.Some? ==> r.value == args[1]
  {
    if |args| > 1 then Some(args[1]) else None
  }

  datatype GameReply =
    | AlreadyRunning        // "start" while a game runs
    | Started
    | NotStarted            // "prog" or "decr" with no game
    | BadNumber             // no positive whole number after "prog" or "decr"
    | Finished              // progress reached 100: the game is over
    | Progress(percent: int)
    | Decreased(percent: int)
    | NothingToStop         // "stop" with no game
    | Stopped
    | NoReply               // any other first word: the bot stays silent

  /** The `games` map of bot.js: channel id to progress in percent. */
  class MiniGames {
    var games: map<Id, int>

    /** A stored progress is always below 100: reaching 100 ends the game. */
    ghost predicate Valid()
      reads this
    {
      forall c | c in games :: 0 <= games[c] <= 99
    }

    constructor ()
      ensures Valid() && games == map[]
    {
      games := map[];
    }

    /** `!mg start`: a channel without a game gets one at 0%. */
    method Start(c: Id) returns (reply: GameReply)
      requires Valid()
      modifies this
      ensures Valid()
      ensures c in old(games) ==> reply == AlreadyRunning && games == old(games)
      ensures c !in old(games) ==> reply == Started && games == old(games)[c := 0]
    {
      if c in games {
        return AlreadyRunning;
      }
      games := games[c := 0];
      reply := Started;
    }

    /**
      `!mg prog <max>`: the progress rises by a random amount from 1 to
      `max`; at 100% or more the game ends and its entry is removed.
     */
    method Prog(c: Id, arg: Option<string>, rand: real) returns (reply: GameReply)
      requires Valid() && 0.0 <= rand < 1.0
      modifies this
      ensures Valid()
      ensures c !in old(games) ==> reply == NotStarted && games == old(games)
      ensures c in old(games) && MaxAmount(arg).None? ==> reply == BadNumber && games == old(games)
      ensures c in old(games) && MaxAmount(arg).Some? ==>
        var p := old(games)[c] + Roll(rand, MaxAmount(arg).value);
        (p >= 100 ==> reply == Finished && games == old(games) - {c}) &&
        (p < 100 ==> reply == Progress(p) && games == old(games)[c := p])
      ensures reply.Progress? ==> old(games)[c] < reply.percent <= old(games)[c] + MaxAmount(arg).value
    {
      if c !in games {
        return NotStarted;
      }
      var maxIncrease := MaxAmount(arg);
      if maxIncrease.None? {
        return BadNumber;
      }
      var progress := games[c];
      var randomIncrease := (rand * maxIncrease.value as real).Floor + 1;
      assert randomIncrease == Roll(rand, maxIncrease.value);
      progress := progress + randomIncrease;
      if progress >= 100 {
        games := games - {c};
        return Finished;
      }
      games := games[c := progress];
      reply := Progress(progress);
    }

    /**
      `!mg decr <max>`: the progress falls by a random amount from 1 to
      `max`, but never below 0; the game goes on.
     */
    method Decr(c: Id, arg: Option<string>, rand: real) returns (reply: GameReply)
      requires Valid() && 0.0 <= rand < 1.0
      modifies this
      ensures Valid()
      ensures c !in old(games) ==> reply == NotStarted && games == old(games)
      ensures c in old(games) && MaxAmount(arg).None? ==> reply == BadNumber && games == old(games)
      ensures c in old(games) && MaxAmount(arg).Some? ==>
        var p := old(games)[c] - Roll(rand, MaxAmount(arg).value);
        reply == Decreased(if p < 0 then 0 else p) && games == old(games)[c := reply.percent]
      ensures reply.Decreased? ==>
        0 <= reply.percent <= old(games)[c] &&
        (old(games)[c] > 0 ==> reply.percent < old(games)[c]) &&
        old(games)[c] - MaxAmount(arg).value <= reply.percent
    {
      if c !in games {
        return NotStarted;
      }
      var maxDecrease := MaxAmount(arg);
      if maxDecrease.None? {
        return BadNumber;
      }
      var progress := games[c];
      var randomDecrease := (rand * maxDecrease.value as real).Floor + 1;
      assert randomDecrease == Roll(rand, maxDecrease.value);
      progress := progress - randomDecrease;
      if progress < 0 {
        progress := 0;
      }
      games := games[c := progress];
      reply := Decreased(progress);
    }

    /** `!mg stop`: the channel's game is removed. */
    method Stop(c: Id) returns (reply: GameReply)
      requires Valid()
      modifies this
      ensures Valid()
      ensures c !in old(games) ==> reply == NothingToStop && games == old(games)
      ensures c in old(games) ==> reply == Stopped && games == old(games) - {c}
    {
      if c !in games {
        return NothingToStop;
      }
      games := games - {c};
      reply := Stopped;
    }

    /**
      `!mg <word> ...` in channel `c` (`String(msg.channel.id)`, a thread
      being its own channel): the first word picks the command, the second
      is the amount; an unknown or missing word changes nothing and gets no
      reply.  Only the named channel's game can change.
     */
    method Command(c: Id, args: seq<string>, rand: real) returns (reply: GameReply)
      requires Valid() && 0.0 <= rand < 1.0
      modifies this
      ensures Valid()
      ensures games - {c} == old(games) - {c}
      ensures (|args| == 0 || args[0] !in {"start", "prog", "decr", "stop"}) ==> reply == NoReply && games == old(games)
      ensures reply == Finished || reply == Stopped <==> c in old(games) && c !in games
      ensures reply == Started <==> c !in old(games) && c in games
      ensures |args| > 0 && args[0] == "start" ==>
        (c in old(games) ==> reply == AlreadyRunning && games == old(games)) &&
        (c !in old(games) ==> reply == Started && games == old(games)[c := 0])
      ensures |args| > 0 && (args[0] == "prog" || args[0] == "decr") && c !in old(games) ==>
        reply == NotStarted && games == old(games)
      ensures |args| > 0 && (args[0] == "prog" || args[0] == "decr") && c in old(games) && MaxAmount(AmountArg(args)).None? ==>
        reply == BadNumber && games == old(games)
      ensures |args| > 0 && args[0] == "prog" && c in old(games) && MaxAmount(AmountArg(args)).Some? ==>
        var p := old(games)[c] + Roll(rand, MaxAmount(AmountArg(args)).value);
        (p >= 100 ==> reply == Finished && games == old(games) - {c}) &&
        (p < 100 ==> reply == Progress(p) && games == old(games)[c := p])
      ensures |args| > 0 && args[0] == "decr" && c in old(games) && MaxAmount(AmountArg(args)).Some? ==>
        var p := old(games)[c] - Roll(rand, MaxAmount(AmountArg(args)).value);
        reply == Decreased(if p < 0 then 0 else p) && games == old(games)[c := reply.percent]
      ensures |args| > 0 && args[0] == "stop" ==>
        (c !in old(games) ==> reply == NothingToStop && games == old(games)) &&
        (c in old(games) ==> reply == Stopped && games == old(games) - {c})
    {
      var amount := AmountArg(args);
      if |args| == 0 {
        reply := NoReply;
      } else if args[0] == "start" {
        reply := Start(c);
      } else if args[0] == "prog" {
        reply := Prog(c, amount, rand);
      } else if args[0] == "decr" {
        reply := Decr(c, amount, rand);
      } else if args[0] == "stop" {
        reply := Stop(c);
      } else {
        reply := NoReply;
      }
    }
  }

  // ---------------------------------------------------------------- !roll N

  /** What `!roll` makes of its arguments before rolling anything. */
  datatype RollForm =
    | NoExpression          // no argument: the bot shows an example
    | DiceExpression(expression: string)  // not a plain number: dice notation, not part of this model
    | OutOfRange            // a plain number outside 2..1000
    | Plain(max: int)       // a plain number from 2 to 1000: one roll from 1 to `max`

  /** `expression.replace(/\s+/g, "")` */
  function Squeeze(s: string): (r: string)
    ensures |r| <= |s|
    ensures forall i | 0 <= i < |r| :: !IsSpace(r[i])
  {
    if s == [] then []
    else (if IsSpace(s[0]) then [] else [s[0]]) + Squeeze(s[1..])
  }

  /** Text without white space is left as it is. */
  lemma {:induction false} SqueezeNoSpace(s: string)
    requires forall i | 0 <= i < |s| :: !IsSpace(s[i])
    ensures Squeeze(s) == s
  {
    if s != [] {
      SqueezeNoSpace(s[1..]);
      assert [s[0]] + s[1..] == s;
    }
  }

  /** Removing white space piece by piece is removing it from the whole: what is not white space stays, in order. */
  lemma {:induction false} SqueezeConcat(a: string, b: string)
    ensures Squeeze(a + b) == Squeeze(a) + Squeeze(b)
  {
    if a == [] {
      assert a + b == b;
    } else {
      assert (a + b)[0] == a[0];
      assert (a + b)[1..] == a[1..] + b;
      SqueezeConcat(a[1..], b);
    }
  }

  /** `!roll 1 0` is read as `!roll 10`: the spaces between digits are dropped before the check. */
  lemma RollOfSpacedDigits()
    ensures ClassifyRoll(["1", "0"]) == Plain(10)
  {
    SqueezeSpacedDigits();
    assert "10"[..1] == "1";
    assert DigitsValue("10") == 10;
    ParseAllDigits("10");
  }

  /** The space between the words of `!roll 1 0` is squeezed out. */
  lemma SqueezeSpacedDigits()
    ensures Squeeze(Join(["1", "0"], " ")) == "10"
  {
    assert Join(["1", "0"], " ") == "1" + (" " + "0");
    SqueezeConcat("1", " " + "0");
    SqueezeConcat(" ", "0");
    assert Squeeze("1") == "1" && Squeeze(" ") == "" && Squeeze("0") == "0";
  }

  /**
    `!roll`'s single-number form: the arguments, joined and stripped of
    white space, must be all digits (`/^\d+$/`) and then lie from 2 to 1000.
   */
  function ClassifyRoll(args: seq<string>): (r: RollForm)
    ensures args == [] <==> r == NoExpression
    ensures r.Plain? <==>
      args != [] && Squeeze(Join(args, " ")) != [] && AllDigits(Squeeze(Join(args, " "))) &&
      2 <= DigitsValue(Squeeze(Join(args, " "))) <= 1000
    ensures r.Plain? ==> 2 <= r.max <= 1000 && r.max == DigitsValue(Squeeze(Join(args, " ")))
    ensures r == OutOfRange ==> AllDigits(Squeeze(Join(args, " "))) && !(2 <= DigitsValue(Squeeze(Join(args, " "))) <= 1000)
    ensures (args != [] && Squeeze(Join(args, " ")) != [] && AllDigits(Squeeze(Join(args, " "))) &&
             !(2 <= DigitsValue(Squeeze(Join(args, " "))) <= 1000)) ==>
      r == OutOfRange
    ensures (args != [] && !(Squeeze(Join(args, " ")) != [] && AllDigits(Squeeze(Join(args, " "))))) ==>
      r == DiceExpression(Squeeze(Join(args, " ")))
  {
    if args == [] then NoExpression
    else
      var expression := Squeeze(Join(args, " "));
      if expression != [] && AllDigits(expression) then
        ParseAllDigits(expression);
        var max := ParseInt(expression).value;
        if max <= 1 || max > 1000 then OutOfRange else Plain(max)
      else DiceExpression(expression)
  }

  /** `!roll N` written by a user: accepted exactly when 2 <= N <= 1000. */
  lemma RollOfNumber(n: nat)
    ensures ClassifyRoll([ShowNat(n)]) == if 2 <= n <= 1000 then Plain(n) else OutOfRange
  {
    var s := ShowNat(n);
    assert Join([s], " ") == s;
    forall i | 0 <= i < |s| ensures !IsSpace(s[i]) {
      assert IsDigit(s[i]);
    }
    SqueezeNoSpace(s);
    ShowNatValue(n);
  }

  /** A roll of an accepted `!roll N` lies from 1 to N. */
  lemma PlainRollInRange(args: seq<string>, rand: real)
    requires 0.0 <= rand < 1.0 && ClassifyRoll(args).Plain?
    ensures 1 <= Roll(rand, ClassifyRoll(args).max) <= ClassifyRoll(args).max <= 1000
  {
  }
}
