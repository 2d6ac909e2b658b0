/** Whole download sessions on one part file: what every session leaves behind,
    and what the next one starts from. */
module Downloads {
  import opened Rotations
  import opened Sequences
  import opened HashText
  import opened PartFile
  import Overlay

  /** One turn of the receive loop: the size announced, what was read, and how
      writing it went. */
  datatype Chunk = Chunk(announced: nat, data: seq<Byte>, outcomes: seq<Written>)

  /** What the server and the system do in one session. */
  datatype Plan = Plan(
    hashText: seq<WChar>, readWorks: bool, cutWorks: bool, answered: bool, partial: bool, truncates: bool, length: int, ranges: bool,
    chunks: seq<Chunk>, broken: bool, now: int, seekWorks: bool, trailer: seq<Written>, renameWorks: bool)

  // ----- what is received --------------------------------------------------

  function Announced(chunks: seq<Chunk>): nat {
    if chunks == [] then 0 else Announced(chunks[..|chunks| - 1]) + chunks[|chunks| - 1].announced
  }

  function Received(chunks: seq<Chunk>): seq<Byte> {
    if chunks == [] then [] else Received(chunks[..|chunks| - 1]) + chunks[|chunks| - 1].data
  }

  /** No chunk reads more than was announced. */
  ghost predicate Readable(chunks: seq<Chunk>) {
    forall i :: 0 <= i < |chunks| ==> |chunks[i].data| <= chunks[i].announced
  }

  /** All that was announced was read, and all of it was written. */
  predicate Whole(c: Chunk) {
    |c.data| == c.announced && (c.data == [] || Completes(c.outcomes, |c.data|))
  }

  ghost predicate AllWhole(chunks: seq<Chunk>) {
    forall i :: 0 <= i < |chunks| ==> Whole(chunks[i])
  }

  /** What a file that was `before` has become: it has grown by no more than was
      announced, and by that much only if every chunk is whole. */
  ghost predicate Grown(before: seq<Byte>, content: seq<Byte>, chunks: seq<Chunk>) {
    && before <= content && |content| <= |before| + Announced(chunks)
    && (|content| == |before| + Announced(chunks) <==> AllWhole(chunks))
    && (AllWhole(chunks) ==> content == before + Received(chunks))
  }

  lemma GrownMore(before: seq<Byte>, content: seq<Byte>, chunks: seq<Chunk>, c: Chunk, k: nat)
    requires Grown(before, content, chunks) && |c.data| <= c.announced && k <= |c.data|
      && (k == |c.data| <==> c.data == [] || Completes(c.outcomes, |c.data|))
    ensures Grown(before, content + c.data[..k], chunks + [c])
  {
    hide Completes;
    var more := chunks + [c];
    assert more[..|more| - 1] == chunks;
    if AllWhole(more) {
      assert Whole(more[|chunks|]);
      forall i | 0 <= i < |chunks| ensures Whole(chunks[i]) {
        assert more[i] == chunks[i];
      }
      assert c.data[..k] == c.data;
      assert before + Received(chunks) + c.data == before + (Received(chunks) + c.data);
    }
  }

  lemma NotGrown(before: seq<Byte>)
    ensures Grown(before, before, [])
  {
    assert before + [] == before;
  }

  /** One chunk goes to the file. Whether writing worked is not looked at. */
  method WriteChunk(part: FilePart, c: Chunk, ghost before: seq<Byte>, ghost chunks: seq<Chunk>)
    requires part.Valid() && part.open && part.pos == |part.disk.content| && |c.data| <= c.announced
    requires Grown(before, part.disk.content, chunks)
    modifies part`pos, part.disk`content
    ensures part.Valid() && part.pos == |part.disk.content| && Grown(before, part.disk.content, chunks + [c])
  {
    hide Grown, Completes;
    ghost var content := part.disk.content;
    var ok := part.WriteFull(c.data, c.outcomes);
    assert part.disk.content == content + c.data[..part.pos - |content|];
    GrownMore(before, content, chunks, c, part.pos - |content|);
  }

  lemma AnnouncedMore(chunks: seq<Chunk>, i: nat)
    requires i < |chunks|
    ensures chunks[..i + 1] == chunks[..i] + [chunks[i]]
    ensures Announced(chunks[..i + 1]) == Announced(chunks[..i]) + chunks[i].announced
  {
    assert chunks[..i + 1][..i] == chunks[..i];
  }

  /** The receive loop. */
  method Receive(part: FilePart, chunks: seq<Chunk>, current0: int) returns (current: int)
    requires part.Valid() && part.open && part.pos == |part.disk.content| && Readable(chunks)
    modifies part`pos, part.disk`content
    ensures part.Valid() && part.pos == |part.disk.content|
    ensures Grown(old(part.disk.content), part.disk.content, chunks) && current == current0 + Announced(chunks)
  {
    current := current0;
    ghost var before := part.disk.content;
    NotGrown(before);
    assert chunks[..0] == [];
    assert Announced([]) == 0;
    hide Grown, Announced;
    for i := 0 to |chunks|
      invariant part.Valid() && part.open && part.pos == |part.disk.content|
      invariant Grown(before, part.disk.content, chunks[..i]) && current == current0 + Announced(chunks[..i])
    {
      AnnouncedMore(chunks, i);
      WriteChunk(part, chunks[i], before, chunks[..i]);
      current := current + chunks[i].announced;
    }
    assert chunks[..|chunks|] == chunks;
  }

  // ----- a session ---------------------------------------------------------

  /** A payload and a trailer that gives its size. */
  ghost predicate RightlySaved(file: seq<Byte>) {
    exists h: Hash, payload: seq<Byte>, total: int, now: int :: Saved(file, h, payload, total, |payload|, now)
  }

  /** What may lie on disk between sessions. */
  ghost predicate WellLeft(present: bool, content: seq<Byte>) {
    present ==> RightlySaved(content)
  }

  /** What MakeFilePart takes over from the file. */
  function Kept(p: Plan, present: bool, content: seq<Byte>): seq<Byte> {
    if p.readWorks && present && Open(content, p.hashText).Resumed? then Open(content, p.hashText).payload else []
  }

  /** The count that comes back is the size of what is taken over. */
  lemma RightCount(content: seq<Byte>, hashText: seq<WChar>)
    requires RightlySaved(content) && Open(content, hashText).Resumed?
    ensures var r := Open(content, hashText); r.currentBytes == |r.payload| <= |content|
  {
    var h: Hash, payload: seq<Byte>, total: int, now: int :| Saved(content, h, payload, total, |payload|, now);
    SavedOpens(content, hashText, h, payload, total, |payload|, now);
  }

  lemma KeptRight(p: Plan, present: bool, content: seq<Byte>)
    requires WellLeft(present, content)
    ensures present ==> |Kept(p, present, content)| + Overlay.SIZE <= |content|
    ensures present && Open(content, p.hashText).Resumed? ==>
      Open(content, p.hashText).currentBytes == |Open(content, p.hashText).payload|
  {
    if present {
      var h: Hash, payload: seq<Byte>, total: int, now: int :| Saved(content, h, payload, total, |payload|, now);
      if Open(content, p.hashText).Resumed? {
        RightCount(content, p.hashText);
      }
    }
  }

  /** What the transfer starts from: nothing, unless the server sends the rest. */
  function Start(p: Plan, present: bool, content: seq<Byte>): seq<Byte> {
    if p.partial then Kept(p, present, content) else []
  }

  /** How long the file is to be: what is kept and what the server announced. */
  function Total(p: Plan, start: seq<Byte>): int {
    p.length + |start|
  }

  /** The transfer can go ahead: the server has answered, and a file that is to
      start over could be emptied. */
  predicate Transfers(p: Plan) {
    p.answered && (p.partial || p.truncates)
  }

  /** The connection broke, or ended before all of a known total had come. */
  predicate BreaksOff(p: Plan, start: seq<Byte>) {
    p.broken || (Total(p, start) != 0 && |start| + Announced(p.chunks) < Total(p, start))
  }

  /** The state of a broken transfer can be saved. */
  ghost predicate Saves(p: Plan, start: seq<Byte>) {
    && p.hashText != [] && Meaning(p.hashText).Some? && p.ranges && p.length > 0
    && AllWhole(p.chunks) && |start| + Announced(p.chunks) > 0
    && p.seekWorks && Completes(p.trailer, Overlay.SIZE)
  }

  /** The file holds what was kept and received, all of it, and the right trailer. */
  ghost predicate SavedBy(p: Plan, start: seq<Byte>, file: seq<Byte>) {
    && AllWhole(p.chunks) && Meaning(p.hashText).Some?
    && var payload := start + Received(p.chunks);
      Saved(file, Meaning(p.hashText).value, payload, Total(p, start), |payload|, p.now)
  }

  /** The end of a broken transfer, destructor included: the state is saved, with
      every byte in place, exactly if it can be; otherwise the file is gone. */
  method BreakOff(part: FilePart, p: Plan, total: int, current: int, ghost start: seq<Byte>)
    requires part.Valid() && part.open && part.discard && Grown(start, part.disk.content, p.chunks)
      && current == |start| + Announced(p.chunks) && total == Total(p, start)
    requires Overlay.IsInt64(total) && Overlay.IsInt64(current) && Overlay.IsInt64(p.now)
    modifies part, part.disk`content, part.disk`present
    ensures part.disk.present <==> Saves(p, start)
    ensures part.disk.present ==> SavedBy(p, start, part.disk.content)
  {
    hide Completes, Meaning, Whole, Announced, Received;
    ghost var content := part.disk.content;
    if p.hashText != [] && p.ranges && p.length > 0 {
      var ok := part.SaveOverlayData(p.hashText, total, current, p.now, p.seekWorks, p.trailer);
      if ok {
        assert content == start + Received(p.chunks);
      }
    }
    part.Close();
  }

  lemma {:induction false} ReceivedSize(chunks: seq<Chunk>)
    requires AllWhole(chunks)
    ensures |Received(chunks)| == Announced(chunks)
  {
    if chunks != [] {
      ReceivedSize(chunks[..|chunks| - 1]);
      assert Whole(chunks[|chunks| - 1]);
    }
  }

  lemma SavedByRight(p: Plan, start: seq<Byte>, file: seq<Byte>)
    requires SavedBy(p, start, file)
    ensures RightlySaved(file) && |file| <= |start| + Announced(p.chunks) + Overlay.SIZE
  {
    ReceivedSize(p.chunks);
  }

  /** The Content-Length, if there is one. */
  function Length(p: Plan): nat {
    if p.length < 0 then 0 else p.length
  }

  /** All numbers stay within int64_t. */
  ghost predicate Bounded(p: Plan, content: seq<Byte>) {
    |content| + Announced(p.chunks) + Length(p) <= Overlay.INT64_MAX && Overlay.IsInt64(p.length)
      && Overlay.IsInt64(p.now) && Readable(p.chunks)
  }

  /** No object is made of a file that cannot be cut. */
  predicate Made(p: Plan, present: bool, content: seq<Byte>) {
    p.cutWorks || !present || content == []
  }

  /** The file is finished. */
  predicate Finishes(p: Plan, start: seq<Byte>) {
    Transfers(p) && !BreaksOff(p, start) && p.renameWorks
  }

  /** One session, from MakeFilePart to the destructor. If the part file was left
      well, the transfer is resumed with the size of what is really there, and the
      file is left well again: absent, untouched, or holding all that was kept and
      received. A file is finished exactly if the transfer went ahead, did not
      break off and could be renamed; it begins with what was kept, and is complete
      if every chunk is. */
  method Session(disk: Disk, p: Plan) returns (asked: int)
    requires WellLeft(disk.present, disk.content) && Bounded(p, if disk.present then disk.content else [])
    modifies disk
    ensures WellLeft(disk.present, disk.content)
    ensures asked ==
      if Made(p, old(disk.present), old(disk.content)) then |Kept(p, old(disk.present), old(disk.content))| else -1
    ensures !Made(p, old(disk.present), old(disk.content)) ==>
      disk.present && disk.content == old(disk.content) && disk.finished == old(disk.finished)
    ensures Made(p, old(disk.present), old(disk.content)) ==>
      Outcome(p, Start(p, old(disk.present), old(disk.content)), disk.present, disk.content, old(disk.finished), disk.finished)
    ensures disk.present ==>
      |disk.content| <= Announced(p.chunks) + if old(disk.present) then |old(disk.content)| else Overlay.SIZE
  {
    hide Completes, Meaning, Outcome, RightlySaved, Announced, Open;
    asked := -1;
    ghost var present, content := disk.present, disk.content;
    KeptRight(p, present, content);
    var part := MakeFilePart(disk, p.hashText, p.readWorks, p.cutWorks);
    if part == null {
      return;
    }
    asked := part.currentBytes;
    if !p.answered {
      part.Close();
      NoTransfer(p, Start(p, present, content), disk.content, disk.finished);
      return;
    }
    Transfer(part, p, Start(p, present, content));
    OutcomeLeft(p, Start(p, present, content), disk.present, disk.content, old(disk.finished), disk.finished);
  }

  /** What is on disk after a session that had an object. */
  ghost predicate Outcome(p: Plan, start: seq<Byte>, present: bool, content: seq<Byte>, was: Option<seq<Byte>>,
      finished: Option<seq<Byte>>) {
    && (present <==> Transfers(p) && BreaksOff(p, start) && Saves(p, start))
    && (present ==> SavedBy(p, start, content))
    && if Finishes(p, start) then finished.Some? && Complete(p, start, finished.value) else finished == was
  }

  /** A finished file begins with what was kept and has grown by what was written;
      if that is all that was announced, the file has the length it is to have. */
  ghost predicate Complete(p: Plan, start: seq<Byte>, file: seq<Byte>) {
    && Grown(start, file, p.chunks)
    && (AllWhole(p.chunks) ==> file == start + Received(p.chunks))
    && (AllWhole(p.chunks) && Total(p, start) != 0 ==> |file| >= Total(p, start))
  }

  lemma NoTransfer(p: Plan, start: seq<Byte>, content: seq<Byte>, was: Option<seq<Byte>>)
    requires !Transfers(p)
    ensures Outcome(p, start, false, content, was, was)
  {
  }

  lemma OutcomeLeft(p: Plan, start: seq<Byte>, present: bool, content: seq<Byte>, was: Option<seq<Byte>>,
      finished: Option<seq<Byte>>)
    requires Outcome(p, start, present, content, was, finished)
    ensures present ==> RightlySaved(content) && |content| <= |start| + Announced(p.chunks) + Overlay.SIZE
  {
    hide Saves, Saved, Complete;
    if present {
      SavedByRight(p, start, content);
    }
  }

  /** The transfer, once the server has answered, and the destructor. */
  method Transfer(part: FilePart, p: Plan, ghost start: seq<Byte>)
    requires part.Valid() && part.open && part.discard && part.pos == |part.disk.content|
      && part.currentBytes == |part.disk.content|
    requires start == (if p.partial then part.disk.content else []) && Bounded(p, part.disk.content) && p.answered
    modifies part, part.disk
    ensures Outcome(p, start, part.disk.present, part.disk.content, old(part.disk.finished), part.disk.finished)
  {
    hide Completes, Meaning, Grown, SavedBy, Saves, Announced, AllWhole;
    var total := p.length;
    if !p.partial {
      var ok := part.Truncated(p.truncates, p.truncates);
      if !ok {
        part.Close();
        return;
      }
    } else {
      total := total + part.currentBytes;
    }
    var current := Receive(part, p.chunks, part.currentBytes);
    if p.broken || (total != 0 && current < total) {
      BreakOff(part, p, total, current, start);
      return;
    }
    GrownComplete(p, start, part.disk.content);
    var ok := part.Solidified(p.renameWorks);
    part.Close();
  }

  lemma GrownComplete(p: Plan, start: seq<Byte>, file: seq<Byte>)
    requires Grown(start, file, p.chunks) && !BreaksOff(p, start)
    ensures Complete(p, start, file)
  {
  }

  // ----- any number of sessions --------------------------------------------

  function Sum(plans: seq<Plan>): nat {
    if plans == [] then 0 else Sum(plans[..|plans| - 1]) + Announced(plans[|plans| - 1].chunks) + Length(plans[|plans| - 1])
  }

  lemma SumMore(plans: seq<Plan>, i: nat)
    requires i < |plans|
    ensures Sum(plans[..i + 1]) == Sum(plans[..i]) + Announced(plans[i].chunks) + Length(plans[i])
      && Sum(plans[..i + 1]) <= Sum(plans)
  {
    assert plans[..i + 1][..i] == plans[..i];
    SumGrows(plans, i + 1);
  }

  lemma {:induction false} SumGrows(plans: seq<Plan>, i: nat)
    requires i <= |plans|
    ensures Sum(plans[..i]) <= Sum(plans)
  {
    if i == |plans| {
      assert plans[..i] == plans;
    } else {
      SumGrows(plans[..|plans| - 1], i);
      assert plans[..|plans| - 1][..i] == plans[..i];
    }
  }

  /** Whatever happens in any number of sessions, each one asks the server to go
      on from exactly the size of what it found on disk. */
  method Sessions(disk: Disk, plans: seq<Plan>) returns (asked: seq<int>, ghost found: seq<Option<seq<Byte>>>)
    requires !disk.present && Sum(plans) + Overlay.SIZE <= Overlay.INT64_MAX
    requires forall i :: 0 <= i < |plans| ==>
      Overlay.IsInt64(plans[i].length) && Overlay.IsInt64(plans[i].now) && Readable(plans[i].chunks)
    modifies disk
    ensures |asked| == |found| == |plans| && WellLeft(disk.present, disk.content)
    ensures forall i :: 0 <= i < |plans| ==>
      asked[i] == Asks(plans[i], found[i])
  {
    hide WellLeft, Asks;
    NothingLeft(disk.content);
    asked, found := [], [];
    for i := 0 to |plans|
      invariant |asked| == |found| == i && WellLeft(disk.present, disk.content)
      invariant forall k :: 0 <= k < i ==>
        asked[k] == Asks(plans[k], found[k])
      invariant disk.present ==> |disk.content| <= Sum(plans[..i]) + Overlay.SIZE
    {
      SumMore(plans, i);
      AsksIs(plans[i], disk.present, disk.content);
      found := found + [if disk.present then Some(disk.content) else None];
      var a := Session(disk, plans[i]);
      asked := asked + [a];
    }
  }

  /** The size of what a session takes over from the file it finds; -1 if it
      cannot use the file. */
  ghost function Asks(p: Plan, found: Option<seq<Byte>>): int {
    if found.None? then 0 else if Made(p, true, found.value) then |Kept(p, true, found.value)| else -1
  }

  lemma AsksIs(p: Plan, present: bool, content: seq<Byte>)
    ensures Asks(p, if present then Some(content) else None) ==
      if Made(p, present, content) then |Kept(p, present, content)| else -1
  {
  }

  lemma NothingLeft(content: seq<Byte>)
    ensures WellLeft(false, content)
  {
  }
}
