/** The logger's level gate and line format. The threshold is the text of
    `LOG_LEVEL` (or "info" when it is absent), the time is an input, and
    writing the line is left to the caller. */
module Logger {
  import opened Wrappers

  datatype Level = Error | Warn | Info | Debug

  /** `levelOrder`: lower is more severe. */
  function Rank(l: Level): nat {
    match l
    case Error => 0
    case Warn => 1
    case Info => 2
    case Debug => 3
  }

  /** The level's name as `LOG_LEVEL` spells it. */
  function Name(l: Level): string {
    match l
    case Error => "error"
    case Warn => "warn"
    case Info => "info"
    case Debug => "debug"
  }

  /** `level.toUpperCase()`: the tag written in the line. */
  function Upper(l: Level): string {
    match l
    case Error => "ERROR"
    case Warn => "WARN"
    case Info => "INFO"
    case Debug => "DEBUG"
  }

  /** `levelOrder[name]`: a number only for the four level names; for any
      other text, including the empty one or an upper-case name, the lookup
      gives `undefined` or an inherited property, never a number. */
  function RankOf(name: string): (r: Option<nat>)
    ensures r.Some? <==> exists l: Level :: Name(l) == name
  {
    if name == "error" then assert Name(Error) == name; Some(0)
    else if name == "warn" then assert Name(Warn) == name; Some(1)
    else if name == "info" then assert Name(Info) == name; Some(2)
    else if name == "debug" then assert Name(Debug) == name; Some(3)
    else
      assert forall l: Level :: Name(l) != name;
      None
  }

  /** Names and orders agree: reading a level's name gives its rank. */
  lemma RankOfName(l: Level)
    ensures RankOf(Name(l)) == Some(Rank(l))
  {
  }

  /** `(process.env.LOG_LEVEL as Level) ?? 'info'`: the threshold is the
      variable's text as it is, or "info" when it is absent. */
  function Threshold(logLevel: Option<string>): (t: string)
    ensures logLevel.Some? ==> t == logLevel.value
    ensures logLevel.None? ==> t == "info"
  {
    logLevel.GetOr("info")
  }

  /** `levelOrder[level] > levelOrder[currentLevel]`: with an unknown
      threshold the comparison is against a value that is not a number and
      never holds. */
  predicate Suppressed(level: Level, threshold: string)
    ensures Suppressed(level, threshold) <==> exists l: Level :: Name(l) == threshold && Rank(level) > Rank(l)
  {
    RankOfName(Error);
    RankOfName(Warn);
    RankOfName(Info);
    RankOfName(Debug);
    match RankOf(threshold)
    case Some(t) => Rank(level) > t
    case None => false
  }

  /** `log(level, message, meta)`: nothing below the threshold, otherwise
      the line "[time] [LEVEL] message" followed by a space and the
      serialised metadata when there is any. */
  function Log(level: Level, message: string, meta: Option<string>, threshold: string, timestamp: string): (line: Option<string>)
    ensures line.None? <==> Suppressed(level, threshold)
  {
    if Suppressed(level, threshold) then None
    else
      var payload := if meta.Some? then " " + meta.value else "";
      Some("[" + timestamp + "] [" + Upper(level) + "] " + message + payload)
  }

  /** A line is written exactly when its level is at most as verbose as a
      recognised threshold, and always under an unrecognised one. */
  lemma EmittedIff(level: Level, message: string, meta: Option<string>, threshold: string, timestamp: string)
    ensures Log(level, message, meta, threshold, timestamp).Some?
        <==> (forall l: Level :: Name(l) == threshold ==> Rank(level) <= Rank(l))
  {
    if RankOf(threshold).Some? {
      var l: Level :| Name(l) == threshold;
      RankOfName(l);
    }
  }

  /** Errors are written whatever the threshold. */
  lemma ErrorsAlwaysEmitted(message: string, meta: Option<string>, threshold: string, timestamp: string)
    ensures Log(Error, message, meta, threshold, timestamp).Some?
  {
  }

  /** A threshold that lets a level through lets every more severe level
      through too. */
  lemma EmittedDownward(level: Level, severer: Level, message: string, meta: Option<string>, threshold: string, timestamp: string)
    requires Rank(severer) <= Rank(level)
    requires Log(level, message, meta, threshold, timestamp).Some?
    ensures Log(severer, message, meta, threshold, timestamp).Some?
  {
  }

  /** With `LOG_LEVEL` unset only debug lines are dropped. */
  lemma DefaultDropsOnlyDebug(level: Level, message: string, meta: Option<string>, timestamp: string)
    ensures Log(level, message, meta, Threshold(None), timestamp).None? <==> level == Debug
  {
  }

  /** A `LOG_LEVEL` set to anything but a level name, the empty text
      included, drops nothing. */
  lemma UnknownThresholdDropsNothing(level: Level, message: string, meta: Option<string>, logLevel: string, timestamp: string)
    requires logLevel !in {"error", "warn", "info", "debug"}
    ensures Log(level, message, meta, Threshold(Some(logLevel)), timestamp).Some?
  {
  }

  /** A written line starts with the bracketed time and level tag and
      carries the message right after them; without metadata it ends
      with the message. */
  lemma LineLayout(level: Level, message: string, meta: Option<string>, threshold: string, timestamp: string)
    requires !Suppressed(level, threshold)
    ensures var line := Log(level, message, meta, threshold, timestamp).value;
      var head := "[" + timestamp + "] [" + Upper(level) + "] ";
      && |line| >= |head| + |message|
      && line[..|head|] == head
      && line[|head|..|head| + |message|] == message
      && (meta.None? ==> |line| == |head| + |message|)
      && (meta.Some? ==> line[|head| + |message|..] == " " + meta.value)
  {
    var head := "[" + timestamp + "] [" + Upper(level) + "] ";
    var payload := if meta.Some? then " " + meta.value else "";
    var line := head + message + payload;
    assert line[..|head|] == head;
    assert line[|head|..|head| + |message|] == message;
    assert line[|head| + |message|..] == payload;
  }

  /** The level tag in a line determines the level. */
  lemma TagsDistinct(a: Level, b: Level)
    ensures Upper(a) == Upper(b) <==> a == b
  {
  }

  /** Raising a recognised threshold never drops a line the lower one
      let through. */
  lemma EmittedUnderRaisedThreshold(level: Level, lower: Level, higher: Level, message: string, meta: Option<string>, timestamp: string)
    requires Rank(lower) <= Rank(higher)
    requires Log(level, message, meta, Name(lower), timestamp).Some?
    ensures Log(level, message, meta, Name(higher), timestamp).Some?
  {
    RankOfName(lower);
    RankOfName(higher);
  }
}
