/** Task identifiers as the strings they are in the source, and why the rest of the model
    may use pairs of a recipe file and a task name instead. */
module TaskIds {
  import opened Sequences

  const MULTICONFIG := "multiconfig:"

  datatype Parts = Parts(mc: string, fn: string, taskname: string)

  function BuildTid(mc: string, fn: string, taskname: string): string {
    if mc != "" then MULTICONFIG + mc + ":" + fn + ":" + taskname else fn + ":" + taskname
  }

  /** The pieces put together again, with colons between them. */
  function JoinColon(pieces: seq<string>): string {
    if pieces == [] then "" else if |pieces| == 1 then pieces[0] else pieces[0] + ":" + JoinColon(pieces[1..])
  }

  /** The identifier cut at the last colon; none without a colon, which is an index error
      in the source. With a multiconfig prefix the second piece is the multiconfig. */
  function SplitTid(tid: string): (r: seq<Parts>) {
    var pieces := Split(tid, ':');
    if StartsWith(tid, MULTICONFIG) then
      if |pieces| == 1 then []
      else [Parts(pieces[1], if |pieces| == 2 then "" else JoinColon(pieces[2..|pieces| - 1]), pieces[|pieces| - 1])]
    else if |pieces| == 1 then []
    else [Parts("", JoinColon(pieces[..|pieces| - 1]), pieces[|pieces| - 1])]
  }

  lemma {:induction false} SplitPlain(s: string)
    requires ':' !in s
    ensures Split(s, ':') == [s]
  {
    if s == "" {
    } else {
      SplitPlain(s[1..]);
      assert [s[0]] + s[1..] == s;
    }
  }

  lemma {:induction false} SplitConcat(a: string, b: string)
    ensures Split(a + ":" + b, ':') == Split(a, ':') + Split(b, ':')
  {
    if a == "" {
      assert "" + ":" + b == ":" + b;
      assert (":" + b)[1..] == b;
    } else {
      assert (a + ":" + b)[1..] == a[1..] + ":" + b;
      SplitConcat(a[1..], b);
    }
  }

  lemma {:induction false} NoColonInPieces(s: string)
    ensures forall p :: p in Split(s, ':') ==> ':' !in p
  {
    if s == "" {
    } else {
      NoColonInPieces(s[1..]);
      var rest := Split(s[1..], ':');
      assert rest[0] in rest;
      assert forall p :: p in rest[1..] ==> p in rest;
    }
  }

  lemma {:induction false} JoinSplit(s: string)
    ensures JoinColon(Split(s, ':')) == s
  {
    if s == "" {
    } else {
      JoinSplit(s[1..]);
      var rest := Split(s[1..], ':');
      assert s == [s[0]] + s[1..];
      if s[0] == ':' {
        assert ([""] + rest)[1..] == rest;
      } else {
        assert ([[s[0]] + rest[0]] + rest[1..])[1..] == rest[1..];
      }
    }
  }

  /** Without a multiconfig, splitting gives back what was put together exactly when the
      task name has no colon and the whole does not look like a multiconfig one. */
  lemma PlainRoundTrip(fn: string, taskname: string)
    ensures SplitTid(BuildTid("", fn, taskname)) == [Parts("", fn, taskname)]
            <==> ':' !in taskname && !StartsWith(BuildTid("", fn, taskname), MULTICONFIG)
  {
    var tid := BuildTid("", fn, taskname);
    var pieces := Split(tid, ':');
    SplitConcat(fn, taskname);
    NoColonInPieces(tid);
    assert pieces[|pieces| - 1] in pieces;
    if ':' !in taskname {
      SplitPlain(taskname);
      assert pieces[..|pieces| - 1] == Split(fn, ':');
      JoinSplit(fn);
      if StartsWith(tid, MULTICONFIG) {
        PrefixCounts(fn, pieces);
      }
    }
  }

  lemma PrefixCounts(fn: string, pieces: seq<string>)
    requires |pieces| > 1 && JoinColon(pieces[..|pieces| - 1]) == fn
      && StartsWith(fn + ":" + pieces[|pieces| - 1], MULTICONFIG)
    ensures fn != if |pieces| == 2 then "" else JoinColon(pieces[2..|pieces| - 1])
  {
    var tid := fn + ":" + pieces[|pieces| - 1];
    assert tid[..|MULTICONFIG|][0] == tid[0] == 'm';
    if |pieces| > 2 {
      ShorterTail(pieces[..|pieces| - 1]);
      assert pieces[..|pieces| - 1][2..] == pieces[2..|pieces| - 1];
    }
  }

  lemma ShorterTail(pieces: seq<string>)
    requires |pieces| >= 2
    ensures |JoinColon(pieces[2..])| < |JoinColon(pieces)|
  {
  }

  lemma MulticonfigPieces(mc: string, fn: string, taskname: string)
    requires mc != ""
    ensures Split(BuildTid(mc, fn, taskname), ':')
      == ["multiconfig"] + Split(mc, ':') + Split(fn, ':') + Split(taskname, ':')
    ensures StartsWith(BuildTid(mc, fn, taskname), MULTICONFIG)
  {
    hide Split;
    var front := "multiconfig" + ":" + mc;
    assert BuildTid(mc, fn, taskname) == front + ":" + fn + ":" + taskname;
    SplitConcat(front + ":" + fn, taskname);
    SplitConcat(front, fn);
    SplitConcat("multiconfig", mc);
    SplitPlain("multiconfig");
  }

  /** With a multiconfig, exactly when neither it nor the task name has a colon. */
  lemma MulticonfigRoundTrip(mc: string, fn: string, taskname: string)
    requires mc != ""
    ensures SplitTid(BuildTid(mc, fn, taskname)) == [Parts(mc, fn, taskname)] <==> ':' !in mc && ':' !in taskname
  {
    hide Split, BuildTid, StartsWith, JoinColon;
    var pieces := Split(BuildTid(mc, fn, taskname), ':');
    MulticonfigPieces(mc, fn, taskname);
    NoColonInPieces(BuildTid(mc, fn, taskname));
    assert pieces[|pieces| - 1] in pieces && pieces[1] in pieces;
    if ':' !in mc && ':' !in taskname {
      SplitPlain(mc);
      SplitPlain(taskname);
      JoinSplit(fn);
      assert pieces[2..|pieces| - 1] == Split(fn, ':');
    }
  }
}
