/**
 Suppressing repeated log entries.

 An entry with the same format string as the burst it follows, and nearly the same character
 sum, is written only while the burst is short; the first entry of the next burst is preceded
 by a line that says how many were left out.
 */
module LogFilter {
  const MAX_REPEATED_LINES := 30
  const MAX_CHAR_VARIATION := 255 * 3

  // the address of the format string, never null, and the formatted text's character codes
  datatype Entry = Entry(msg: nat, text: seq<int>)

  datatype Line = Text(entry: Entry) | Repeated(lines: nat)

  function Sum(text: seq<int>, n: nat): int
    requires n <= |text|
  {
    if n == 0 then 0 else Sum(text, n - 1) + text[n - 1]
  }

  function Abs(x: int): int {
    if x < 0 then -x else x
  }

  /** An entry that continues a burst with this head. */
  predicate Continues(head: Entry, entry: Entry) {
    entry.msg == head.msg && Abs(Sum(entry.text, |entry.text|) - Sum(head.text, |head.text|)) < MAX_CHAR_VARIATION
  }

  /** Texts of the same format belong together if their sums differ by less than 765 either way. */
  lemma {:induction false} ContinuesExactly(a: Entry, b: Entry)
    ensures Continues(a, b) == Continues(b, a)
    ensures
      var difference := Sum(a.text, |a.text|) - Sum(b.text, |b.text|);
      Continues(a, b) <==> a.msg == b.msg && -765 < difference < 765
  {}

  /** Every character counts once, wherever it stands. */
  lemma {:induction false} SumOfParts(a: seq<int>, b: seq<int>, n: nat)
    requires n <= |b|
    ensures Sum(a + b, |a| + n) == Sum(a, |a|) + Sum(b, n)
    ensures Sum([], 0) == 0 && forall c :: Sum([c], 1) == c
  {
    if n > 0 {
      SumOfParts(a, b, n - 1);
      assert (a + b)[|a| + n - 1] == b[n - 1];
    } else {
      SumOfPrefix(a, b, |a|);
    }
    assert forall c :: Sum([c], 1) == Sum([c], 0) + c;
  }

  lemma {:induction false} SumOfPrefix(a: seq<int>, b: seq<int>, n: nat)
    requires n <= |a|
    ensures Sum(a + b, n) == Sum(a, n)
  {
    if n > 0 {
      SumOfPrefix(a, b, n - 1);
    }
  }

  // ---- Bursts ---------------------------------------------------------------------------------

  /** The first entry of the burst that entry i belongs to. */
  function Head(entries: seq<Entry>, i: nat): (h: nat)
    requires i < |entries|
    ensures h <= i
  {
    if i == 0 then 0
    else
      var h := Head(entries, i - 1);
      if Continues(entries[h], entries[i]) then h else i
  }

  /** An entry is written if at most thirty of its burst come before it, not counting the head. */
  predicate IsWritten(entries: seq<Entry>, i: nat)
    requires i < |entries|
  {
    i - Head(entries, i) <= MAX_REPEATED_LINES
  }

  /** How many entries of the burst that ends with entry i are left out. */
  function Excess(entries: seq<Entry>, i: nat): nat
    requires i < |entries|
  {
    var repeats := i - Head(entries, i);
    if repeats > MAX_REPEATED_LINES then repeats - MAX_REPEATED_LINES else 0
  }

  function Notice(entries: seq<Entry>, i: nat): seq<Line>
    requires i < |entries|
  {
    if i > 0 && Head(entries, i) == i && Excess(entries, i - 1) > 0 then [Repeated(Excess(entries, i - 1))] else []
  }

  /** The log file after n entries. */
  function Log(entries: seq<Entry>, n: nat): seq<Line>
    requires n <= |entries|
  {
    if n == 0 then []
    else Log(entries, n - 1) + Notice(entries, n - 1)
         + (if IsWritten(entries, n - 1) then [Text(entries[n - 1])] else [])
  }

  // ---- The filter -------------------------------------------------------------------------------

  class LogHandler {
    var logFile: seq<Line>
    var lastMsg: nat
    var lastCharSum: int
    var repCount: nat

    constructor ()
      ensures logFile == [] && lastMsg == 0 && lastCharSum == 0 && repCount == 0
    {
      logFile, lastMsg, lastCharSum, repCount := [], 0, 0, 0;
    }

    method SumChars(text: seq<int>) returns (val: int)
      ensures val == Sum(text, |text|)
    {
      val := 0;
      for i := 0 to |text|
        invariant val == Sum(text, i)
      {
        val := val + text[i];
      }
    }

    method TooManyRepeatedEntries(entry: Entry) returns (tooMany: bool)
      modifies this
      ensures var same := lastMsg == old(lastMsg);
        if old(lastMsg) == entry.msg && Abs(Sum(entry.text, |entry.text|) - old(lastCharSum)) < MAX_CHAR_VARIATION then
          && tooMany == (old(repCount) >= MAX_REPEATED_LINES)
          && repCount == old(repCount) + 1 && same && lastCharSum == old(lastCharSum) && logFile == old(logFile)
        else
          && !tooMany && repCount == 0 && lastMsg == entry.msg && lastCharSum == Sum(entry.text, |entry.text|)
          && logFile == old(logFile)
               + (if old(repCount) > MAX_REPEATED_LINES then [Repeated(old(repCount) - MAX_REPEATED_LINES)] else [])
    {
      var newSum := SumChars(entry.text);
      if lastMsg == entry.msg {
        var diff := Abs(newSum - lastCharSum);
        if diff < MAX_CHAR_VARIATION {
          tooMany := repCount >= MAX_REPEATED_LINES;
          repCount := repCount + 1;
          return;
        }
      }
      if repCount > MAX_REPEATED_LINES {
        logFile := logFile + [Repeated(repCount - MAX_REPEATED_LINES)];
      }
      lastMsg := entry.msg;
      lastCharSum := newSum;
      repCount := 0;
      return false;
    }

    method DoLog(entry: Entry)
      modifies this
      ensures var repeats := old(lastMsg) == entry.msg
          && Abs(Sum(entry.text, |entry.text|) - old(lastCharSum)) < MAX_CHAR_VARIATION;
        if repeats then
          && repCount == old(repCount) + 1 && lastMsg == old(lastMsg) && lastCharSum == old(lastCharSum)
          && logFile == old(logFile) + (if old(repCount) < MAX_REPEATED_LINES then [Text(entry)] else [])
        else
          && repCount == 0 && lastMsg == entry.msg && lastCharSum == Sum(entry.text, |entry.text|)
          && logFile == old(logFile)
               + (if old(repCount) > MAX_REPEATED_LINES then [Repeated(old(repCount) - MAX_REPEATED_LINES)] else [])
               + [Text(entry)]
    {
      var tooMany := TooManyRepeatedEntries(entry);
      if !tooMany {
        logFile := logFile + [Text(entry)];
      }
    }

    /** The handler remembers the head of the latest burst and how far the burst has come. */
    ghost predicate Remembers(entries: seq<Entry>, n: nat)
      requires n <= |entries|
      reads this
    {
      if n == 0 then lastMsg == 0 && repCount == 0
      else
        var head := Head(entries, n - 1);
        && lastMsg == entries[head].msg
        && lastCharSum == Sum(entries[head].text, |entries[head].text|)
        && repCount == n - 1 - head
    }
  }

  /** For every sequence of entries the log file holds what the bursts say. */
  method Run(entries: seq<Entry>) returns (log: seq<Line>)
    requires forall i :: 0 <= i < |entries| ==> entries[i].msg != 0
    ensures log == Log(entries, |entries|)
  {
    var handler := new LogHandler();
    for n := 0 to |entries|
      invariant fresh(handler)
      invariant handler.logFile == Log(entries, n) && handler.Remembers(entries, n)
    {
      handler.DoLog(entries[n]);
    }
    log := handler.logFile;
  }

  // ---- Conservation -------------------------------------------------------------------------------

  /** How many of the first n entries are not in the log. */
  function Suppressed(entries: seq<Entry>, n: nat): nat
    requires n <= |entries|
  {
    if n == 0 then 0 else Suppressed(entries, n - 1) + if IsWritten(entries, n - 1) then 0 else 1
  }

  /** The total of all "repeated for N more lines". */
  function Announced(log: seq<Line>, n: nat): nat
    requires n <= |log|
  {
    if n == 0 then 0 else Announced(log, n - 1) + match log[n - 1] case Repeated(lines) => lines case Text(_) => 0
  }

  lemma {:induction false} AnnouncedOfParts(a: seq<Line>, b: seq<Line>, n: nat)
    requires |a| <= n <= |a + b|
    ensures Announced(a + b, n) == Announced(a, |a|) + Announced(b, n - |a|)
  {
    if n > |a| {
      AnnouncedOfParts(a, b, n - 1);
    } else {
      AnnouncedPrefix(a, b, n);
    }
  }

  lemma {:induction false} AnnouncedPrefix(a: seq<Line>, b: seq<Line>, n: nat)
    requires n <= |a|
    ensures Announced(a + b, n) == Announced(a, n)
  {
    if n > 0 {
      AnnouncedPrefix(a, b, n - 1);
    }
  }

  /** At every point, what is left out is what has been announced and what still will be. */
  lemma {:induction false} SuppressionIsAnnounced(entries: seq<Entry>, n: nat)
    requires n <= |entries|
    ensures Suppressed(entries, n) ==
      Announced(Log(entries, n), |Log(entries, n)|) + if n == 0 then 0 else Excess(entries, n - 1)
  {
    hide Continues;
    if n > 0 {
      SuppressionIsAnnounced(entries, n - 1);
      var before, notice := Log(entries, n - 1), Notice(entries, n - 1);
      var text := if IsWritten(entries, n - 1) then [Text(entries[n - 1])] else [];
      AnnouncedOfParts(before, notice, |before + notice|);
      AnnouncedOfParts(before + notice, text, |before + notice + text|);
      assert Announced(text, |text|) == 0;
      assert Announced(notice, |notice|) == if notice == [] then 0 else notice[0].lines;
    }
  }

  /** How many entries from a up to b are written. */
  function Written(entries: seq<Entry>, a: nat, b: nat): nat
    requires a <= b <= |entries|
    decreases b
  {
    if a == b then 0 else Written(entries, a, b - 1) + if IsWritten(entries, b - 1) then 1 else 0
  }

  /** A burst with this head, of this length so far. */
  predicate IsBurst(entries: seq<Entry>, head: nat, end: nat) {
    head < end <= |entries| && forall i :: head <= i < end ==> Head(entries, i) == head
  }

  /** Each burst writes its first thirty-one entries and no more. */
  lemma {:induction false} BurstWritesThirtyOne(entries: seq<Entry>, head: nat, end: nat)
    requires IsBurst(entries, head, end)
    ensures Written(entries, head, end) == if end - head <= 31 then end - head else 31
    decreases end
  {
    if end > head + 1 {
      BurstWritesThirtyOne(entries, head, end - 1);
    } else {
      assert Written(entries, head, head) == 0;
    }
    assert Head(entries, end - 1) == head;
  }
}
