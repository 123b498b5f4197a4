/** Log tails inside status messages: how they are cut, joined to a headline and
    split off again for the check run. */
module LogDetail {
  import opened Text

  /** logTailBytes: how much of a failed Job's log is kept. */
  const LOG_TAIL_BYTES := 2048

  /** maxMigrationMessage: what a status message may put into etcd before it is cut. */
  const MAX_MIGRATION_MESSAGE := 4096

  const DOTS := "..."

  /** Where a log that is too long is cut: after the first line break among its
      last `maxBytes` bytes, unless that line break is the very last byte. */
  function CutAt(s: string, maxBytes: int): (k: nat)
    requires 0 < maxBytes < |s|
    ensures |s| - maxBytes <= k < |s|
  {
    var nl := IndexFrom(s, '\n', |s| - maxBytes);
    if 0 <= nl < |s| - 1 then nl + 1 else |s| - maxBytes
  }

  /** Keeps the END of a log, preferring to start at a line boundary. */
  function TruncateLogTail(s: string, maxBytes: int): (r: string)
    ensures maxBytes > 0 ==> |r| <= maxBytes + 4
  {
    if maxBytes <= 0 || |s| <= maxBytes then s else DOTS + ['\n'] + s[CutAt(s, maxBytes)..]
  }

  /** A log that is too long keeps its end: from behind the first line break among the last
      `maxBytes` bytes, `i`, or all of them when that is the very last byte or not there. */
  lemma TailExactly(s: string, maxBytes: int, i: nat)
    requires 0 < maxBytes < |s| && |s| - maxBytes <= i <= |s|
    requires (forall k | |s| - maxBytes <= k < i :: s[k] != '\n') && (i < |s| ==> s[i] == '\n')
    ensures TruncateLogTail(s, maxBytes)
         == "..." + ['\n'] + s[(if i < |s| - 1 then i + 1 else |s| - maxBytes)..]
  {
    CutExactly(s, maxBytes, i);
    hide CutAt;
  }

  lemma CutExactly(s: string, maxBytes: int, i: nat)
    requires 0 < maxBytes < |s| && |s| - maxBytes <= i <= |s|
    requires (forall k | |s| - maxBytes <= k < i :: s[k] != '\n') && (i < |s| ==> s[i] == '\n')
    ensures CutAt(s, maxBytes) == if i < |s| - 1 then i + 1 else |s| - maxBytes
  {
    var nl := IndexFrom(s, '\n', |s| - maxBytes);
    hide IndexFrom;
    assert nl == if i < |s| then i else -1;
  }

  /** What fits is not touched. */
  lemma ShortKept(s: string)
    ensures |s| <= 4096 ==> TruncateMigrationMessage(s) == s
    ensures |s| > 4096 ==> TruncateMigrationMessage(s) == TruncateLogTail(s, 4096)
    ensures |TrimSpace(s)| <= 2048 ==> TailProbe(s) == TrimSpace(s)
    ensures |TrimSpace(s)| > 2048 ==> TailProbe(s) == TruncateLogTail(TrimSpace(s), 2048)
  {
  }

  function TailProbe(log: string): string {
    TruncateLogTail(TrimSpace(log), LOG_TAIL_BYTES)
  }

  function JoinDetail(head: string, tail: string): string {
    if tail == "" then head else head + "\n" + tail
  }

  function TruncateMigrationMessage(s: string): string {
    if |s| <= MAX_MIGRATION_MESSAGE then s else TruncateLogTail(s, MAX_MIGRATION_MESSAGE)
  }

  function SplitDetail(msg: string): (string, string) {
    var m := TrimSpace(msg);
    var i := Index(m, '\n');
    if i >= 0 then (m[..i], TrimSpace(m[i + 1..])) else (m, "")
  }

  lemma CutIsTrimmed(s: string, k: nat)
    requires s != "" && Trimmed(s) && k < |s|
    ensures Trimmed(DOTS + ['\n'] + s[k..])
  {
    var r := DOTS + ['\n'] + s[k..];
    assert r[0] == '.';
    assert r[|r| - 1] == s[k..][|s| - k - 1] == s[|s| - 1];
  }

  /** A log tail is at most 2052 bytes, a status message at most 4100, whatever
      the log and the headline were; and a tail never ends or begins in white space. */
  lemma Bounds(log: string, message: string)
    ensures |TailProbe(log)| <= 2052
    ensures |TruncateMigrationMessage(message)| <= 4100
    ensures Trimmed(TailProbe(log))
  {
    var s := TrimSpace(log);
    if |s| > LOG_TAIL_BYTES {
      CutIsTrimmed(s, CutAt(s, LOG_TAIL_BYTES));
    }
  }

  predicate IsHeadline(head: string) {
    head != "" && Trimmed(head) && Free(head, '\n')
  }

  lemma SplitFirstLine(head: string, rest: string)
    requires Free(head, '\n') && Trimmed(head + ['\n'] + rest)
    ensures SplitDetail(head + ['\n'] + rest) == (head, TrimSpace(rest))
  {
    var m := head + ['\n'] + rest;
    assert TrimSpace(m) == m;
    assert m[|head|] == '\n' && forall k | 0 <= k < |head| :: m[k] == head[k];
    assert Index(m, '\n') == |head|;
    assert m[..|head|] == head && m[|head| + 1..] == rest;
  }

  lemma SplitOfJoin(head: string, tail: string)
    requires IsHeadline(head) && Trimmed(tail)
    ensures SplitDetail(JoinDetail(head, tail)) == (head, tail)
  {
    if tail != "" {
      var m := head + ['\n'] + tail;
      assert JoinDetail(head, tail) == m;
      assert m[|m| - 1] == tail[|tail| - 1];
      SplitFirstLine(head, tail);
    }
  }

  /** A cut message always splits into the bare ellipsis and something else. */
  lemma SplitOfCut(msg: string)
    requires |msg| > MAX_MIGRATION_MESSAGE && Trimmed(msg)
    ensures SplitDetail(TruncateMigrationMessage(msg)).0 == DOTS
  {
    hide SplitDetail;
    var k := CutAt(msg, MAX_MIGRATION_MESSAGE);
    CutIsTrimmed(msg, k);
    SplitFirstLine(DOTS, msg[k..]);
  }

  /** The check run recovers headline and log tail from the stored message exactly
      when the joined text fits in a status message. */
  lemma DetailRecovered(head: string, log: string)
    requires IsHeadline(head)
    ensures var tail := TailProbe(log);
      SplitDetail(TruncateMigrationMessage(JoinDetail(head, tail))) == (head, tail)
      <==> |JoinDetail(head, tail)| <= 4096
  {
    var tail := TailProbe(log);
    var m := JoinDetail(head, tail);
    Bounds(log, m);
    if |m| <= MAX_MIGRATION_MESSAGE {
      SplitOfJoin(head, tail);
    } else {
      assert tail != "" ==> m[|m| - 1] == tail[|tail| - 1];
      SplitOfCut(m);
    }
  }

  /** Any headline of at most 2043 bytes is safe, whatever the log. */
  lemma ShortHeadlineRecovered(head: string, log: string)
    requires IsHeadline(head) && |head| <= 2043
    ensures SplitDetail(TruncateMigrationMessage(JoinDetail(head, TailProbe(log)))) == (head, TailProbe(log))
  {
    Bounds(log, head);
    DetailRecovered(head, log);
  }

  /** 2043 is the sharp bound: every longer headline is lost for some log. */
  lemma LongHeadlineLost(head: string)
    requires IsHeadline(head) && |head| > 2043
    ensures exists log ::
              SplitDetail(TruncateMigrationMessage(JoinDetail(head, TailProbe(log)))) != (head, TailProbe(log))
  {
    var log := seq(LOG_TAIL_BYTES + 1, i => 'x');
    assert TrimSpace(log) == log;
    assert TailProbe(log) == DOTS + ['\n'] + log[1..];
    DetailRecovered(head, log);
  }
}
