/** Writeback errors are reported once to every open file description: each description keeps a
    cursor into a wrapping error sequence of its inode. */
module ErrorCursors {
  import opened Common

  /** The error sequence is a machine word and wraps around. */
  const WORD: nat := 0x1_0000_0000_0000_0000

  datatype Errno = Errno(code: nat)
  datatype Answer = Fine | Failed(error: Errno) | NoCursor

  datatype Event =
    | Record(error: Errno)
    | Sample(file: nat)
    | Check(file: nat)

  /** What a cursor learns from the current error state. */
  function Compare(sequence: nat, error: Option<Errno>, cursor: nat): Answer {
    if cursor == sequence || error == None then Fine else Failed(error.value)
  }

  /** The error state and all cursors after a history of events. */
  datatype Table = Table(sequence: nat, error: Option<Errno>, cursors: map<nat, nat>)

  function Next(t: Table, e: Event): Table {
    match e
    case Record(error) => t.(sequence := (t.sequence + 1) % WORD, error := Some(error))
    case Sample(f) => t.(cursors := t.cursors[f := t.sequence])
    case Check(f) => if f in t.cursors then t.(cursors := t.cursors[f := t.sequence]) else t
  }

  function Replay(history: seq<Event>): Table {
    if history == [] then Table(0, None, map[])
    else Next(Replay(history[..|history| - 1]), history[|history| - 1])
  }

  /** The answer a check gets after a history. */
  function CheckAfter(history: seq<Event>, file: nat): Answer {
    var t := Replay(history);
    if file in t.cursors then Compare(t.sequence, t.error, t.cursors[file]) else NoCursor
  }

  // ---- The reference: what the history itself says ----

  predicate Opened(history: seq<Event>, file: nat) {
    exists i | 0 <= i < |history| :: history[i] == Sample(file)
  }

  function ErrorCount(history: seq<Event>): nat {
    if history == [] then 0
    else ErrorCount(history[..|history| - 1]) + if history[|history| - 1].Record? then 1 else 0
  }

  /** How many errors were recorded since this description last sampled or checked. */
  function ErrorsSince(history: seq<Event>, file: nat): nat {
    if history == [] then 0 else
      var last, rest := history[|history| - 1], history[..|history| - 1];
      if last == Sample(file) || (last == Check(file) && Opened(rest, file)) then 0
      else ErrorsSince(rest, file) + if last.Record? then 1 else 0
  }

  function LatestError(history: seq<Event>): Option<Errno> {
    if history == [] then None
    else if history[|history| - 1].Record? then Some(history[|history| - 1].error)
    else LatestError(history[..|history| - 1])
  }

  lemma {:induction false} ReplayMeaning(history: seq<Event>, file: nat)
    ensures var t := Replay(history);
      && t.sequence == ErrorCount(history) % WORD && t.error == LatestError(history)
      && (file in t.cursors <==> Opened(history, file))
      && (Opened(history, file) ==>
            ErrorsSince(history, file) <= ErrorCount(history) &&
            t.cursors[file] == (ErrorCount(history) - ErrorsSince(history, file)) % WORD)
      && (0 < ErrorCount(history) ==> LatestError(history).Some?)
  {
    if history != [] {
      var last, rest := history[|history| - 1], history[..|history| - 1];
      ReplayMeaning(rest, file);
      assert forall i | 0 <= i < |rest| :: rest[i] == history[i];
      assert Opened(history, file) <==> Opened(rest, file) || last == Sample(file);
    }
  }

  /** A check fails, with the latest error, exactly if the number of errors recorded since this
      description's previous sample or check is not a multiple of the word size; no other
      description's events matter. For fewer than 2^64 errors: exactly if there was one. */
  lemma CheckReportsOnce(history: seq<Event>, file: nat)
    requires Opened(history, file)
    ensures ErrorsSince(history, file) % WORD == 0 ==> CheckAfter(history, file) == Fine
    ensures ErrorsSince(history, file) % WORD != 0 ==>
      LatestError(history).Some? && CheckAfter(history, file) == Failed(LatestError(history).value)
    ensures ErrorsSince(history, file) < WORD ==>
      (CheckAfter(history, file).Failed? <==> ErrorsSince(history, file) > 0)
  {
    ReplayMeaning(history, file);
    var n, k := ErrorCount(history), ErrorsSince(history, file);
    SameRemainder(n, k);
  }

  lemma SameRemainder(n: nat, k: nat)
    requires k <= n
    ensures (n - k) % WORD == n % WORD <==> k % WORD == 0
  {
  }

  /** Right after a check the same description has nothing to report. */
  lemma SecondCheckIsFine(history: seq<Event>, file: nat)
    requires Opened(history, file)
    ensures CheckAfter(history + [Check(file)], file) == Fine
  {
    var h := history + [Check(file)];
    assert h[..|h| - 1] == history;
    ReplayMeaning(history, file);
  }

  /** Events of other descriptions never change what a description is owed. */
  lemma OtherCursorsDoNotMatter(history: seq<Event>, file: nat, other: Event)
    requires Opened(history, file) && !other.Record? && other.file != file
    ensures CheckAfter(history + [other], file) == CheckAfter(history, file)
  {
  }

  // ---- The inode's error state ----

  lemma Extended(history: seq<Event>, e: Event)
    ensures (history + [e])[..|history|] == history && (history + [e])[|history|] == e
  {
  }

  lemma OpenedMore(history: seq<Event>, e: Event, file: nat)
    ensures Opened(history + [e], file) <==> Opened(history, file) || e == Sample(file)
  {
    var h := history + [e];
    if Opened(history, file) {
      var i :| 0 <= i < |history| && history[i] == Sample(file);
      assert h[i] == Sample(file);
    }
    assert h[|history|] == e;
  }

  class WritebackErrors {
    var sequence: nat
    var error: Option<Errno>
    ghost var history: seq<Event>

    /** The two fields are what is left of everything that happened. */
    ghost predicate Valid()
      reads this
    {
      Replay(history).sequence == sequence && Replay(history).error == error
    }

    /** `cursor` is the cursor of description `file`. */
    ghost predicate Owns(file: nat, cursor: nat)
      reads this
    {
      file in Replay(history).cursors && Replay(history).cursors[file] == cursor
    }

    constructor ()
      ensures Valid() && history == []
    {
      sequence, error, history := 0, None, [];
    }

    /** An error is owed to every description that is open now. */
    method RecordError(e: Errno)
      requires Valid()
      modifies this
      ensures Valid() && history == old(history) + [Record(e)]
      ensures forall f, c | old(Owns(f, c)) :: Owns(f, c) && ErrorsSince(history, f) == ErrorsSince(old(history), f) + 1
      ensures LatestError(history) == Some(e)
    {
      Extended(history, Record(e));
      sequence, error := (sequence + 1) % WORD, Some(e);
      history := history + [Record(e)];
    }

    /** A new description is owed nothing: earlier errors are not its business. */
    method SampleCursor(ghost file: nat) returns (cursor: nat)
      requires Valid()
      modifies this`history
      ensures Valid() && history == old(history) + [Sample(file)]
      ensures Owns(file, cursor) && Opened(history, file) && ErrorsSince(history, file) == 0
      ensures forall f, c | f != file && old(Owns(f, c)) :: Owns(f, c) && ErrorsSince(history, f) == ErrorsSince(old(history), f)
    {
      Extended(history, Sample(file));
      OpenedMore(history, Sample(file), file);
      cursor := sequence;
      history := history + [Sample(file)];
    }

    /** A check reports the latest error exactly if this description is owed one, and then it is owed
        nothing more; others are owed what they were. */
    method CheckCursor(ghost file: nat, cursor: nat) returns (answer: Answer, next: nat)
      requires Valid() && Owns(file, cursor)
      modifies this`history
      ensures Valid() && history == old(history) + [Check(file)] && Owns(file, next) && ErrorsSince(history, file) == 0
      ensures if ErrorsSince(old(history), file) % WORD == 0 then answer == Fine
              else LatestError(old(history)).Some? && answer == Failed(LatestError(old(history)).value)
      ensures forall f, c | f != file && old(Owns(f, c)) :: Owns(f, c) && ErrorsSince(history, f) == ErrorsSince(old(history), f)
    {
      ReplayMeaning(history, file);
      CheckReportsOnce(history, file);
      Extended(history, Check(file));
      next := sequence;
      if cursor == sequence {
        answer := Fine;
      } else {
        match error {
          case None => answer := Fine;
          case Some(e) => answer := Failed(e);
        }
      }
      history := history + [Check(file)];
    }
  }
}
