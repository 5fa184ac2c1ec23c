/** The dump run: validate and send the request, collect the replies, then
    decode each reply in order into a patch file and a lookup entry. Port
    and file operations are recorded as events; base64 encoding is the
    parameter `b64`. */
module Dump {
  import opened Results
  import opened Packing
  import opened Request
  import opened Collector
  import opened PatchDecode
  import opened LookupIndex

  /** The outcome of decoding replies in order: the records decoded before
      the first failure, and that failure if there was one. */
  datatype Decoded = Decoded(records: seq<PatchRecord>, failure: Option<Error>)

  /** Decode replies in order with `decode`; the first failure ends the run.
      The run uses DecodePatch; the properties below hold for any decoder. */
  function DecodeAll(patches: seq<seq<byte>>, decode: seq<byte> -> Result<PatchRecord>): (d: Decoded)
    ensures |d.records| <= |patches|
    ensures d.failure.None? <==> |d.records| == |patches|
    decreases |patches|
  {
    if |patches| == 0 then Decoded([], None)
    else
      var before := DecodeAll(patches[..|patches| - 1], decode);
      if before.failure.Some? then before
      else
        match decode(patches[|patches| - 1])
        case Ok(r) => Decoded(before.records + [r], None)
        case Err(e) => Decoded(before.records, Some(e))
  }

  /** The records are the decodings of the leading replies. Without a
      failure every reply decoded; with one, it is the failure of the first
      reply that did not decode. */
  lemma {:induction false} DecodeAllSpec(patches: seq<seq<byte>>, decode: seq<byte> -> Result<PatchRecord>)
    ensures var d := DecodeAll(patches, decode);
            && |d.records| <= |patches|
            && (forall i :: 0 <= i < |d.records| ==> decode(patches[i]) == Ok(d.records[i]))
            && (d.failure.None? ==> |d.records| == |patches|)
            && (d.failure.Some? ==> |d.records| < |patches| && decode(patches[|d.records|]) == Err(d.failure.value))
    decreases |patches|
  {
    if |patches| > 0 {
      var front := patches[..|patches| - 1];
      DecodeAllSpec(front, decode);
      assert forall i :: 0 <= i < |front| ==> front[i] == patches[i];
    }
  }

  /** One more reply after a run without failure: its record is appended,
      or its error becomes the failure. */
  lemma DecodeAllStep(patches: seq<seq<byte>>, decode: seq<byte> -> Result<PatchRecord>, i: nat)
    requires i < |patches| && DecodeAll(patches[..i], decode).failure.None?
    ensures var before := DecodeAll(patches[..i], decode).records;
            match decode(patches[i])
            case Ok(r) => DecodeAll(patches[..i + 1], decode) == Decoded(before + [r], None)
            case Err(e) => DecodeAll(patches[..i + 1], decode) == Decoded(before, Some(e))
  {
    assert patches[..i + 1][..i] == patches[..i];
  }

  /** Once a failure has happened, later replies are not looked at. */
  lemma {:induction false} DecodeAllStops(patches: seq<seq<byte>>, decode: seq<byte> -> Result<PatchRecord>, i: nat)
    requires i <= |patches| && DecodeAll(patches[..i], decode).failure.Some?
    ensures DecodeAll(patches, decode) == DecodeAll(patches[..i], decode)
    decreases |patches| - i
  {
    if i < |patches| {
      assert patches[..i + 1][..i] == patches[..i];
      DecodeAllStops(patches, decode, i + 1);
    } else {
      assert patches[..i] == patches;
    }
  }

  /** The lookup entries of the records, in order: name to base64 of the packed block. */
  function Entries(records: seq<PatchRecord>, b64: seq<byte> -> string): seq<(string, string)>
  {
    seq(|records|, i requires 0 <= i < |records| => (records[i].name, b64(records[i].packed)))
  }

  /** The patch files of the records, in order: file name and whole reply. */
  function Files(records: seq<PatchRecord>): seq<(string, seq<byte>)>
  {
    seq(|records|, i requires 0 <= i < |records| => (records[i].fileName, records[i].raw))
  }

  /** One more record adds one lookup pair and one file. */
  lemma RecordsAppend(records: seq<PatchRecord>, r: PatchRecord, b64: seq<byte> -> string)
    ensures Entries(records + [r], b64) == Entries(records, b64) + [(r.name, b64(r.packed))]
    ensures Build(Entries(records + [r], b64)) == Insert(Build(Entries(records, b64)), r.name, b64(r.packed))
    ensures Files(records + [r]) == Files(records) + [(r.fileName, r.raw)]
  {
    var pairs := Entries(records + [r], b64);
    assert pairs[..|records|] == Entries(records, b64);
  }

  /** The per-patch loop: decode each reply, enter its name in the lookup
      table, and write its file, stopping at the first reply that fails. */
  method ProcessPatches(patches: seq<seq<byte>>, b64: seq<byte> -> string)
    returns (index: OrderedIndex, files: seq<(string, seq<byte>)>, failure: Option<Error>)
    ensures fresh(index)
    ensures Valid(index.View())
    ensures failure == DecodeAll(patches, DecodePatch).failure
    ensures files == Files(DecodeAll(patches, DecodePatch).records)
    ensures index.View() == Build(Entries(DecodeAll(patches, DecodePatch).records, b64))
  {
    index := new OrderedIndex();
    files := [];
    failure := None;
    ghost var records: seq<PatchRecord> := [];
    var i := 0;
    assert patches[..0] == [];
    while i < |patches|
      invariant i <= |patches|
      invariant DecodeAll(patches[..i], DecodePatch) == Decoded(records, None)
      invariant files == Files(records)
      invariant Valid(index.View()) && index.View() == Build(Entries(records, b64))
    {
      DecodeAllStep(patches, DecodePatch, i);
      match DecodePatch(patches[i]) {
        case Err(e) =>
          failure := Some(e);
          DecodeAllStops(patches, DecodePatch, i + 1);
          return;
        case Ok(r) =>
          RecordsAppend(records, r, b64);
          index.Put(r.name, b64(r.packed));
          files := files + [(r.fileName, r.raw)];
          records := records + [r];
      }
      i := i + 1;
    }
    assert patches[..i] == patches;
  }

  /** The operations of a run on ports and files. */
  datatype Event =
    | OpenOutput
    | OpenInput
    | Send(message: seq<int>)
    | CloseOutput
    | CloseInput
    | WritePatchFile(fileName: string, contents: seq<byte>)
    | WriteLookup(keys: seq<string>, entries: map<string, string>)

  /** How a run ends: all written, aborted by an error, or still polling for
      replies that have not arrived. */
  datatype Outcome = Completed | Failed(error: Error) | Waiting

  function FileEvents(files: seq<(string, seq<byte>)>): seq<Event>
  {
    seq(|files|, i requires 0 <= i < |files| => WritePatchFile(files[i].0, files[i].1))
  }

  /** A whole run, given the bank letter and program range, the results of
      the input port's polls, and the base64 encoder. */
  method RunDump(bankArg: string, first: int, last: int, polls: seq<Option<seq<byte>>>, b64: seq<byte> -> string)
    returns (events: seq<Event>, outcome: Outcome)
    // a bad bank letter or range fails before any port is opened
    ensures BuildRequest(bankArg, first, last).Err? ==>
      events == [] && outcome == Failed(BuildRequest(bankArg, first, last).error)
    ensures BuildRequest(bankArg, first, last).Ok? ==>
      var request := BuildRequest(bankArg, first, last).value;
      var n := ExpectedCount(first, last);
      var started := [OpenOutput, OpenInput, Send(request)];
      if |Received(polls)| < n then
        events == started && outcome == Waiting
      else
        var d := DecodeAll(Received(polls)[..n], DecodePatch);
        var written := started + [CloseOutput, CloseInput] + FileEvents(Files(d.records));
        if d.failure.Some? then
          events == written && outcome == Failed(d.failure.value)
        else
          var table := Build(Entries(d.records, b64));
          events == written + [WriteLookup(table.keys, table.entries)] && outcome == Completed
  {
    var request := BuildRequest(bankArg, first, last);
    if request.Err? {
      return [], Failed(request.error);
    }
    events := [OpenOutput, OpenInput, Send(request.value)];
    var patches, complete := Collect(polls, ExpectedCount(first, last));
    if !complete {
      return events, Waiting;
    }
    events := events + [CloseOutput, CloseInput];
    var index, files, failure := ProcessPatches(patches, b64);
    events := events + FileEvents(files);
    if failure.Some? {
      return events, Failed(failure.value);
    }
    events := events + [WriteLookup(index.keys, index.entries)];
    outcome := Completed;
  }
}
