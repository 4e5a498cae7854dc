/** The in-memory session registry of the backend: for each session id, the
    websockets connected to it and the transcript lines heard so far. */
module Sessions {

  /** One transcript line: `{"speaker": speaker, "text": text}`. */
  datatype Entry = Entry(speaker: int, text: string)

  /** The window `get_recent_context` uses when no limit is given. */
  const DefaultContextLimit: int := 20

  function Min(a: int, b: int): int {
    if a <= b then a else b
  }

  /** Python's `list.remove(x)` when `x` is present: the first occurrence of
      `x` goes, everything else stays in order. Absent `x` leaves `s` as is
      (the caller checks membership first). */
  function RemoveFirst<T(==)>(s: seq<T>, x: T): (r: seq<T>)
    ensures x !in s ==> r == s
    ensures x in s ==> |r| == |s| - 1
    ensures multiset(r) == multiset(s) - multiset{x}
    decreases |s|
  {
    if |s| == 0 then s
    else if s[0] == x then
      assert s == [s[0]] + s[1..];
      s[1..]
    else
      assert s == [s[0]] + s[1..];
      [s[0]] + RemoveFirst(s[1..], x)
  }

  /** The removed element is the first occurrence: what precedes it and what
      follows it are kept. */
  lemma {:induction false} RemoveFirstAt<T>(s: seq<T>, x: T, i: nat)
    requires i < |s| && s[i] == x && x !in s[..i]
    ensures RemoveFirst(s, x) == s[..i] + s[i + 1..]
    decreases i
  {
    if i > 0 {
      assert s[0] in s[..i];
      assert s[1..][..i - 1] == s[1..i];
      RemoveFirstAt(s[1..], x, i - 1);
      assert s[..i] == [s[0]] + s[1..][..i - 1];
      assert s[i + 1..] == s[1..][i - 1 + 1..];
    }
  }

  /** Python's slice `s[start:]` for any integer `start`: a negative start
      counts from the end, and both are clipped to the bounds of `s`. */
  function SliceFrom<T>(s: seq<T>, start: int): seq<T> {
    if start >= 0 then s[Min(start, |s|)..]
    else if |s| + start >= 0 then s[|s| + start..]
    else s
  }

  /** The registry. `W` is the websocket type; only its equality is used. */
  class ConnectionManager<W(==)> {
    var activeConnections: map<string, seq<W>>
    var transcripts: map<string, seq<Entry>>

    /** Every active session has a connection, and every active session has
        a transcript list. */
    ghost predicate Valid()
      reads this
    {
      && (forall sid :: sid in activeConnections ==> |activeConnections[sid]| > 0)
      && activeConnections.Keys <= transcripts.Keys
    }

    /** `transcripts.get(sid, [])`. */
    function Transcript(sid: string): seq<Entry>
      reads this
    {
      if sid in transcripts then transcripts[sid] else []
    }

    constructor ()
      ensures Valid()
      ensures activeConnections == map[] && transcripts == map[]
    {
      activeConnections := map[];
      transcripts := map[];
    }

    /** Registers `ws` under `sid`. The first connection of a session starts
        it with an empty transcript, discarding any lines stored before. */
    method Connect(ws: W, sid: string)
      requires Valid()
      modifies this
      ensures Valid()
      ensures sid !in old(activeConnections) ==>
        && activeConnections == old(activeConnections)[sid := [ws]]
        && transcripts == old(transcripts)[sid := []]
      ensures sid in old(activeConnections) ==>
        && activeConnections == old(activeConnections)[sid := old(activeConnections)[sid] + [ws]]
        && transcripts == old(transcripts)
    {
      if sid !in activeConnections {
        activeConnections := activeConnections[sid := []];
        transcripts := transcripts[sid := []];
      }
      assert [] + [ws] == [ws];
      activeConnections := activeConnections[sid := activeConnections[sid] + [ws]];
    }

    /** Unregisters one occurrence of `ws` from `sid`. When no connection is
        left, the session and its transcript are forgotten. */
    method Disconnect(ws: W, sid: string)
      requires Valid()
      modifies this
      ensures Valid()
      ensures sid !in old(activeConnections) ==>
        activeConnections == old(activeConnections) && transcripts == old(transcripts)
      ensures sid in old(activeConnections) ==>
        var remaining := RemoveFirst(old(activeConnections)[sid], ws);
        if remaining == [] then
          && activeConnections == old(activeConnections) - {sid}
          && transcripts == old(transcripts) - {sid}
        else
          && activeConnections == old(activeConnections)[sid := remaining]
          && transcripts == old(transcripts)
    {
      if sid in activeConnections {
        var connections := activeConnections[sid];
        if ws in connections {
          connections := RemoveFirst(connections, ws);
        }
        if connections == [] {
          activeConnections := activeConnections - {sid};
          if sid in transcripts {
            transcripts := transcripts - {sid};
          }
        } else {
          activeConnections := activeConnections[sid := connections];
        }
      }
    }

    /** Appends one line to the transcript of `sid`, creating it if needed;
        the connections are not touched. */
    method AddTranscript(sid: string, text: string, speaker: int)
      requires Valid()
      modifies this
      ensures Valid()
      ensures activeConnections == old(activeConnections)
      ensures transcripts == old(transcripts)[sid := old(Transcript(sid)) + [Entry(speaker, text)]]
    {
      if sid !in transcripts {
        transcripts := transcripts[sid := []];
      }
      transcripts := transcripts[sid := transcripts[sid] + [Entry(speaker, text)]];
    }

    /** `transcripts.get(sid, [])[-limit:]`: for a positive limit, the last
        `limit` lines (all of them if there are fewer), in order. Python's
        slicing makes a zero limit return every line and a negative one drop
        the first `-limit` lines. */
    method GetRecentContext(sid: string, limit: int) returns (context: seq<Entry>)
      ensures sid !in transcripts ==> context == []
      ensures limit > 0 ==>
        && |context| == Min(limit, |Transcript(sid)|)
        && context == Transcript(sid)[|Transcript(sid)| - |context|..]
      ensures limit == 0 ==> context == Transcript(sid)
      ensures limit < 0 ==> context == Transcript(sid)[Min(-limit, |Transcript(sid)|)..]
    {
      var lines := if sid in transcripts then transcripts[sid] else [];
      context := SliceFrom(lines, -limit);
    }
  }
}
