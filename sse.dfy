/**
 * The watcher's minimal reader of a server-sent-events stream (`_sse_events`).
 * Of the "data" field handling of the HTML Living Standard's event-stream
 * interpretation it keeps only lines that begin with "data: " (colon and one
 * space), strips the rest of the line, and passes each non-empty payload on to
 * a JSON decoder, skipping payloads the decoder rejects. Lines arrive already
 * split and decoded as text; the decoder is a parameter.
 */
module ServerSentEvents {
  import opened Wrappers
  import opened Text

  const DataField := "data: "

  predicate IsDataLine(line: string) {
    StartsWith(line, DataField)
  }

  /** The stripped text after "data: " on a data line. */
  function Payload(line: string): string
    requires IsDataLine(line)
  {
    Strip(line[|DataField|..])
  }

  /** A data line whose payload is not blank: the lines that yield something. */
  predicate Yields(line: string) {
    IsDataLine(line) && Payload(line) != []
  }

  /** What one line contributes: nothing, or its payload. */
  function LinePayloads(line: string): (r: seq<string>)
    ensures |r| <= 1
    ensures r != [] <==> Yields(line)
    ensures r != [] ==> r[0] == Payload(line)
  {
    if line == [] then []
    else if !IsDataLine(line) then []
    else
      var data := Strip(line[|DataField|..]);
      if data == [] then [] else [data]
  }

  /** The payload strings of a stream of lines, in stream order, before JSON decoding. */
  function DataPayloads(lines: seq<string>): (r: seq<string>)
    ensures |r| <= |lines|
    decreases |lines|
  {
    if lines == [] then [] else LinePayloads(lines[0]) + DataPayloads(lines[1..])
  }

  /** Reading a stream in two pieces yields the payloads of the first piece, then those of the second. */
  lemma {:induction false} DataPayloadsAppend(a: seq<string>, b: seq<string>)
    ensures DataPayloads(a + b) == DataPayloads(a) + DataPayloads(b)
    decreases |a|
  {
    if a != [] {
      assert (a + b)[0] == a[0];
      assert (a + b)[1..] == a[1..] + b;
      DataPayloadsAppend(a[1..], b);
    } else {
      assert a + b == b;
    }
  }

  /** Every payload comes from some data line of the stream and is that line's stripped text. */
  lemma {:induction false} PayloadOrigin(lines: seq<string>, k: nat)
    requires k < |DataPayloads(lines)|
    ensures exists i :: 0 <= i < |lines| && Yields(lines[i]) && DataPayloads(lines)[k] == Payload(lines[i])
    decreases |lines|
  {
    var head := LinePayloads(lines[0]);
    var tail := lines[1..];
    assert DataPayloads(lines) == head + DataPayloads(tail);
    if k < |head| {
      assert Yields(lines[0]) && DataPayloads(lines)[k] == Payload(lines[0]);
    } else {
      assert DataPayloads(lines)[k] == DataPayloads(tail)[k - |head|];
      PayloadOrigin(tail, k - |head|);
      var i :| 0 <= i < |tail| && Yields(tail[i]) && DataPayloads(tail)[k - |head|] == Payload(tail[i]);
      assert tail[i] == lines[i + 1];
    }
  }

  /** No payload is blank or carries whitespace at its ends. */
  lemma PayloadTrimmed(lines: seq<string>, k: nat)
    requires k < |DataPayloads(lines)|
    ensures DataPayloads(lines)[k] != [] && Trimmed(DataPayloads(lines)[k])
  {
    PayloadOrigin(lines, k);
  }

  /** Blank lines, comments, "event:", "id:" and every other non-data line contribute nothing. */
  lemma {:induction false} OnlyDataLinesYield(lines: seq<string>)
    requires forall i :: 0 <= i < |lines| ==> !Yields(lines[i])
    ensures DataPayloads(lines) == []
    decreases |lines|
  {
    if lines != [] {
      OnlyDataLinesYield(lines[1..]);
    }
  }

  /** A stream of one line yields what that line contributes. */
  lemma DataPayloadsSingle(line: string)
    ensures DataPayloads([line]) == LinePayloads(line)
  {
    assert [line][1..] == [];
  }

  /**
   * Every yielding line is delivered, at the position given by the number of
   * payloads before it: nothing is dropped and the stream order is kept.
   */
  lemma PayloadPosition(lines: seq<string>, i: nat)
    requires i < |lines| && Yields(lines[i])
    ensures |DataPayloads(lines[..i])| < |DataPayloads(lines)|
    ensures DataPayloads(lines)[|DataPayloads(lines[..i])|] == Payload(lines[i])
  {
    var before, upTo, after := lines[..i], lines[..i + 1], lines[i + 1..];
    assert upTo == before + [lines[i]];
    assert lines == upTo + after;
    DataPayloadsSingle(lines[i]);
    DataPayloadsAppend(before, [lines[i]]);
    DataPayloadsAppend(upTo, after);
    var n := |DataPayloads(before)|;
    assert DataPayloads(upTo) == DataPayloads(before) + [Payload(lines[i])];
    assert DataPayloads(lines)[n] == DataPayloads(upTo)[n];
  }

  /** Of two yielding lines, the earlier one's payload comes first. */
  lemma PayloadOrder(lines: seq<string>, i: nat, j: nat)
    requires i < j < |lines| && Yields(lines[i]) && Yields(lines[j])
    ensures |DataPayloads(lines[..i])| < |DataPayloads(lines[..j])|
  {
    var prefix := lines[..j];
    assert prefix[..i] == lines[..i];
    assert prefix[i] == lines[i];
    PayloadPosition(prefix, i);
  }

  /** The JSON values handed on: the decodable payloads, in order; `decode` stands for json.loads. */
  function Decoded<T>(payloads: seq<string>, decode: string -> Option<T>): (r: seq<T>)
    ensures |r| <= |payloads|
    decreases |payloads|
  {
    if payloads == [] then []
    else
      var rest := Decoded(payloads[1..], decode);
      match decode(payloads[0])
      case Some(v) => [v] + rest
      case None => rest
  }

  /** Every value handed on is the decoding of some payload. */
  lemma {:induction false} DecodedOrigin<T>(payloads: seq<string>, decode: string -> Option<T>, k: nat)
    requires k < |Decoded(payloads, decode)|
    ensures exists j :: 0 <= j < |payloads| && decode(payloads[j]) == Some(Decoded(payloads, decode)[k])
    decreases |payloads|
  {
    var tail := payloads[1..];
    var rest := Decoded(tail, decode);
    var skip := if decode(payloads[0]).Some? then 1 else 0;
    assert Decoded(payloads, decode) == (if skip == 1 then [decode(payloads[0]).value] else []) + rest;
    if k < skip {
      assert decode(payloads[0]) == Some(Decoded(payloads, decode)[k]);
    } else {
      assert Decoded(payloads, decode)[k] == rest[k - skip];
      DecodedOrigin(tail, decode, k - skip);
      var j :| 0 <= j < |tail| && decode(tail[j]) == Some(rest[k - skip]);
      assert tail[j] == payloads[j + 1];
    }
  }

  /**
   * Decoding a stream of payloads in two pieces gives the values of the first
   * piece followed by those of the second: rejected payloads are skipped without
   * reordering the rest.
   */
  lemma {:induction false} DecodedAppend<T>(a: seq<string>, b: seq<string>, decode: string -> Option<T>)
    ensures Decoded(a + b, decode) == Decoded(a, decode) + Decoded(b, decode)
    decreases |a|
  {
    if a == [] {
      assert a + b == b;
    } else {
      assert (a + b)[0] == a[0];
      assert (a + b)[1..] == a[1..] + b;
      DecodedAppend(a[1..], b, decode);
    }
  }

  /** `_sse_events`: the decoded events of a stream of lines. */
  function Events<T>(lines: seq<string>, decode: string -> Option<T>): (r: seq<T>)
    ensures |r| <= |lines|
  {
    Decoded(DataPayloads(lines), decode)
  }

  /** Every event is the decoding of the payload of some data line of the stream. */
  lemma EventOrigin<T>(lines: seq<string>, decode: string -> Option<T>, k: nat)
    requires k < |Events(lines, decode)|
    ensures exists i :: 0 <= i < |lines| && Yields(lines[i]) && decode(Payload(lines[i])) == Some(Events(lines, decode)[k])
  {
    var payloads := DataPayloads(lines);
    DecodedOrigin(payloads, decode, k);
    var j :| 0 <= j < |payloads| && decode(payloads[j]) == Some(Events(lines, decode)[k]);
    PayloadOrigin(lines, j);
    var i :| 0 <= i < |lines| && Yields(lines[i]) && payloads[j] == Payload(lines[i]);
  }

  /** When the decoder accepts every payload, there is exactly one value per payload, in order. */
  lemma {:induction false} DecodedAll<T>(payloads: seq<string>, decode: string -> Option<T>)
    requires forall j :: 0 <= j < |payloads| ==> decode(payloads[j]).Some?
    ensures |Decoded(payloads, decode)| == |payloads|
    ensures forall k :: 0 <= k < |payloads| ==> Some(Decoded(payloads, decode)[k]) == decode(payloads[k])
    decreases |payloads|
  {
    if payloads != [] {
      var tail := payloads[1..];
      assert forall j :: 0 <= j < |tail| ==> tail[j] == payloads[j + 1];
      DecodedAll(tail, decode);
      var v := decode(payloads[0]).value;
      var rest := Decoded(tail, decode);
      assert Decoded(payloads, decode) == [v] + rest;
      forall k | 0 <= k < |payloads|
        ensures Some(Decoded(payloads, decode)[k]) == decode(payloads[k])
      {
        if k > 0 {
          assert Decoded(payloads, decode)[k] == rest[k - 1];
          assert Some(rest[k - 1]) == decode(tail[k - 1]);
        }
      }
    }
  }
}
