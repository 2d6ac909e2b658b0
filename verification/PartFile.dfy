/** A download that can be resumed: the payload so far, followed on disk by a
    trailer that a later run checks and removes. */
module PartFile {
  import opened Rotations
  import opened Sequences
  import opened HashText
  import Overlay

  /** 'P', 'A', 'R', 'T' */
  const MAGIC: seq<Byte> := [0x50, 0x41, 0x52, 0x54]

  // ----- what is on disk ---------------------------------------------------

  /** The trailer for a hash and a state of the download. */
  function Trailer(h: Hash, totalBytes: int, currentBytes: int, now: int): Overlay.Data {
    Overlay.Data(MAGIC, h.hashMethod, h.hashsz, h.bytes, totalBytes, currentBytes, now)
  }

  /** How a file found on disk is opened. */
  datatype Opened = Fresh | Resumed(payload: seq<Byte>, totalBytes: int, currentBytes: int, lasteTime: int)

  predicate Matches(d: Overlay.Data, h: Hash) {
    d.magic == MAGIC && d.hash == h.bytes && d.hashMethod == h.hashMethod && d.hashsz == h.hashsz
  }

  /** The decision of MakeFilePart. */
  function Open(file: seq<Byte>, hashText: seq<WChar>): Opened {
    if |file| <= Overlay.SIZE || hashText == [] then Fresh
    else
      match Meaning(hashText)
      case None => Fresh
      case Some(h) =>
        var seekTo := |file| - Overlay.SIZE;
        var d := Overlay.Decode(file[seekTo..]);
        if Matches(d, h) then Resumed(file[..seekTo], d.totalBytes, d.currentBytes, d.lasteTime) else Fresh
  }

  /** A hash as hash_construct makes it. */
  lemma {:induction false} LookupIn(names: seq<Named>, prefix: seq<WChar>)
    ensures Lookup(names, prefix).Some? ==> Lookup(names, prefix).value in names
  {
    if names != [] && Text(names[0].prefix) != prefix {
      LookupIn(names[1..], prefix);
    }
  }

  lemma MeaningFits(t: seq<WChar>)
    requires Meaning(t).Some?
    ensures var h := Meaning(t).value; h.hashMethod < 65536 && h.hashsz < 65536 && |h.bytes| == HASH_BYTES
  {
    LookupIn(Names(), UpperAll(t[..Colon(t)]));
  }

  /** A payload and the trailer for a hash. */
  predicate Saved(file: seq<Byte>, h: Hash, payload: seq<Byte>, totalBytes: int, currentBytes: int, now: int) {
    var d := Trailer(h, totalBytes, currentBytes, now);
    payload != [] && d.Valid() && file == payload + Overlay.Encode(d)
  }

  lemma SavedOpens(file: seq<Byte>, hashText: seq<WChar>, h: Hash, payload: seq<Byte>, totalBytes: int,
      currentBytes: int, now: int)
    requires Saved(file, h, payload, totalBytes, currentBytes, now)
    ensures Open(file, hashText) ==
      if hashText != [] && Meaning(hashText) == Some(h) then Resumed(payload, totalBytes, currentBytes, now) else Fresh
  {
    var d := Trailer(h, totalBytes, currentBytes, now);
    Overlay.RoundTrip(d);
    hide Overlay.Decode, Overlay.Encode, Meaning;
    assert file[..|file| - Overlay.SIZE] == payload && file[|file| - Overlay.SIZE..] == Overlay.Encode(d);
  }

  /** A file resumes exactly if it is a payload with a trailer for the hash the
      text stands for. What comes back is what the trailer says: nothing compares
      the count in it with the size of the payload. */
  lemma ResumedIff(file: seq<Byte>, hashText: seq<WChar>, payload: seq<Byte>, totalBytes: int, currentBytes: int,
      now: int)
    ensures Open(file, hashText) == Resumed(payload, totalBytes, currentBytes, now) <==>
      hashText != [] && Meaning(hashText).Some?
        && Saved(file, Meaning(hashText).value, payload, totalBytes, currentBytes, now)
  {
    if hashText != [] && Meaning(hashText).Some? && Saved(file, Meaning(hashText).value, payload, totalBytes, currentBytes, now) {
      SavedOpens(file, hashText, Meaning(hashText).value, payload, totalBytes, currentBytes, now);
    }
    if Open(file, hashText) == Resumed(payload, totalBytes, currentBytes, now) {
      var tail := file[|file| - Overlay.SIZE..];
      Overlay.RoundBack(tail);
      hide Overlay.Decode, Overlay.Encode, Meaning;
      assert file == file[..|file| - Overlay.SIZE] + tail;
      assert Overlay.Decode(tail) == Trailer(Meaning(hashText).value, totalBytes, currentBytes, now);
    }
  }

  /** A saved file resumes for every text with the same meaning, with exactly
      the payload and count that were saved, and for no other text. */
  lemma SavedThenOpened(payload: seq<Byte>, saved: seq<WChar>, later: seq<WChar>, totalBytes: int, now: int)
    requires payload != [] && Meaning(saved).Some? && Overlay.IsInt64(totalBytes) && Overlay.IsInt64(|payload|)
      && Overlay.IsInt64(now)
    ensures Trailer(Meaning(saved).value, totalBytes, |payload|, now).Valid()
    ensures Open(payload + Overlay.Encode(Trailer(Meaning(saved).value, totalBytes, |payload|, now)), later) ==
      if later != [] && Meaning(later) == Meaning(saved) then Resumed(payload, totalBytes, |payload|, now) else Fresh
  {
    MeaningFits(saved);
    var file := payload + Overlay.Encode(Trailer(Meaning(saved).value, totalBytes, |payload|, now));
    SavedOpens(file, later, Meaning(saved).value, payload, totalBytes, |payload|, now);
  }

  /** A file with a trailer that gives another size resumes with that size. */
  lemma WrongCount(payload: seq<Byte>, hashText: seq<WChar>, totalBytes: int, count: int, now: int)
      returns (file: seq<Byte>)
    requires payload != [] && hashText != [] && Meaning(hashText).Some? && count != |payload|
    requires Overlay.IsInt64(totalBytes) && Overlay.IsInt64(count) && Overlay.IsInt64(now)
    ensures Open(file, hashText) == Resumed(payload, totalBytes, count, now)
  {
    MeaningFits(hashText);
    file := payload + Overlay.Encode(Trailer(Meaning(hashText).value, totalBytes, count, now));
    SavedOpens(file, hashText, Meaning(hashText).value, payload, totalBytes, count, now);
  }

  /** The end of s, or of s followed by t, that a trailer is read from. */
  lemma TailSplit(s: seq<Byte>, t: seq<Byte>, z: nat)
    requires |t| <= z <= |s| + |t|
    ensures (s + t)[|s| + |t| - z..] == s[|s| + |t| - z..] + t && (s + t)[..|s| + |t| - z] == s[..|s| + |t| - z]
  {
  }

  /** A record that begins before another one cannot have its magic inside. */
  lemma MagicApart(s: seq<Byte>, t: seq<Byte>)
    requires 1 <= |s| <= 3 && |s| + |t| >= 4 && (forall i :: 0 <= i < 4 && i < |t| ==> t[i] == MAGIC[i])
    ensures (s + t)[..4] != MAGIC
  {
    var m := (s + t)[..4];
    assert m[|s|] == t[0] == 0x50;
    assert MAGIC[|s|] != 0x50;
  }

  lemma TornMagic(payload: seq<Byte>, some: seq<Byte>)
    requires |some| < Overlay.SIZE <= |payload| + |some|
      && (forall i :: 0 <= i < 4 && i < |some| ==> some[i] == MAGIC[i])
    requires (payload + some)[|payload| + |some| - Overlay.SIZE..][..4] == MAGIC
    ensures |some| <= 92 && payload[|payload| + |some| - Overlay.SIZE..][..4] == MAGIC
  {
    var at := |payload| + |some| - Overlay.SIZE;
    var rest := payload[at..];
    TailSplit(payload, some, Overlay.SIZE);
    if |some| > 92 {
      MagicApart(rest, some);
    } else {
      assert (rest + some)[..4] == rest[..4];
    }
  }

  lemma MagicFirst(d: Overlay.Data)
    requires d.Valid()
    ensures Overlay.Encode(d)[..4] == d.magic
  {
  }

  /** A trailer written only in part, on a file nobody closed: if it resumes at
      all, the payload itself has the magic in its last 96 bytes, and what
      resumes is what precedes it. */
  lemma TornSave(payload: seq<Byte>, d: Overlay.Data, k: nat, later: seq<WChar>)
    requires d.Valid() && d.magic == MAGIC && k < Overlay.SIZE
    ensures var r := Open(payload + Overlay.Encode(d)[..k], later);
      r.Resumed? ==> k <= 92 && |r.payload| == |payload| + k - Overlay.SIZE && r.payload < payload && payload[|r.payload|..][..4] == MAGIC
  {
    MagicFirst(d);
    var some := Overlay.Encode(d)[..k];
    assert forall i :: 0 <= i < 4 ==> Overlay.Encode(d)[i] == Overlay.Encode(d)[..4][i];
    hide Overlay.Encode, Meaning;
    if Open(payload + some, later).Resumed? {
      TornMagic(payload, some);
      TailSplit(payload, some, Overlay.SIZE);
    }
  }

  // ----- the file and the object -------------------------------------------

  /** The ".part" file; `finished` is what it was renamed to, if it was. */
  class Disk {
    var present: bool
    var content: seq<Byte>
    var finished: Option<seq<Byte>>

    constructor (file: Option<seq<Byte>>)
      ensures finished == None && present == file.Some? && (present ==> content == file.value)
    {
      present, finished := file.Some?, None;
      content := if file.Some? then file.value else [];
    }
  }

  /** The outcome of one WriteFile call. */
  datatype Written = Failed | Wrote(count: nat)

  /** The calls write n bytes before one fails; the first is made even for none. */
  predicate Completes(outcomes: seq<Written>, n: nat) {
    outcomes != [] && outcomes[0].Wrote? && (outcomes[0].count >= n || Completes(outcomes[1..], n - outcomes[0].count))
  }

  /** Bytes written over those at a position. */
  function Overwrite(content: seq<Byte>, pos: nat, data: seq<Byte>): seq<Byte>
    requires pos <= |content|
  {
    content[..pos] + data + if pos + |data| < |content| then content[pos + |data|..] else []
  }

  lemma OverwriteTwice(content: seq<Byte>, pos: nat, a: seq<Byte>, b: seq<Byte>)
    requires pos <= |content|
    ensures pos + |a| <= |Overwrite(content, pos, a)|
      && Overwrite(Overwrite(content, pos, a), pos + |a|, b) == Overwrite(content, pos, a + b)
  {
    var once := Overwrite(content, pos, a);
    assert once[..pos + |a|] == content[..pos] + a;
    if pos + |a| + |b| < |content| {
      assert once[pos + |a| + |b|..] == content[pos + |a| + |b|..];
    }
  }

  lemma OverwriteNothing(content: seq<Byte>, pos: nat, data: seq<Byte>)
    requires pos <= |content|
    ensures Overwrite(content, pos, data[..0]) == content
  {
  }

  lemma OverwriteLength(content: seq<Byte>, pos: nat, data: seq<Byte>)
    requires pos <= |content|
    ensures |Overwrite(content, pos, data)| >= pos + |data|
  {
  }

  class FilePart {
    const disk: Disk
    var open: bool
    var pos: nat
    var totalBytes: int
    var currentBytes: int
    var lasteTime: int
    var discard: bool

    /** While the file is open it is present, and the position lies within it. */
    ghost predicate Valid()
      reads this, disk
    {
      open ==> disk.present && pos <= |disk.content|
    }

    constructor (d: Disk, total: int, current: int, recent: int, position: nat)
      requires d.present && position <= |d.content|
      ensures Valid() && open && discard && disk == d && pos == position && totalBytes == total
        && currentBytes == current && lasteTime == recent
    {
      disk, open, pos, totalBytes, currentBytes, lasteTime, discard := d, true, position, total, current, recent, true;
    }

    /** truncated_file: seek, then cut the file off there. */
    method CutAt(at: nat, seekWorks: bool, cutWorks: bool) returns (ok: bool)
      requires Valid() && open && at <= |disk.content|
      modifies this`pos, disk`content
      ensures Valid() && ok == (seekWorks && cutWorks)
      ensures ok ==> disk.content == old(disk.content)[..at] && pos == at
      ensures !ok ==> disk.content == old(disk.content)
    {
      if !seekWorks {
        return false;
      }
      pos := at;
      if !cutWorks {
        return false;
      }
      disk.content := disk.content[..at];
      ok := true;
    }

    /** Truncated: start again from nothing. */
    method Truncated(seekWorks: bool, cutWorks: bool) returns (ok: bool)
      requires Valid() && open
      modifies this`pos, this`currentBytes, this`totalBytes, disk`content
      ensures Valid() && ok == (seekWorks && cutWorks)
      ensures ok ==> disk.content == [] && pos == 0 && currentBytes == 0 && totalBytes == 0
      ensures !ok ==>
        disk.content == old(disk.content) && currentBytes == old(currentBytes) && totalBytes == old(totalBytes)
    {
      ok := CutAt(0, seekWorks, cutWorks);
      if ok {
        currentBytes, totalBytes := 0, 0;
      }
    }

    /** WriteFull: one WriteFile call after the other until all is written. A run
        of outcomes that ends early stands for a call that never returns. */
    method WriteFull(data: seq<Byte>, outcomes: seq<Written>) returns (ok: bool)
      requires Valid() && open
      modifies this`pos, disk`content
      ensures Valid() && old(pos) <= pos <= old(pos) + |data|
      ensures disk.content == Overwrite(old(disk.content), old(pos), data[..pos - old(pos)])
      ensures ok <==> Completes(outcomes, |data|)
      ensures pos == old(pos) + |data| <==> ok || data == []
    {
      hide Overwrite;
      var written: nat := 0;
      var i := 0;
      ghost var content, at := disk.content, pos;
      OverwriteNothing(content, at, data);
      ok := false;
      while i < |outcomes|
        invariant i <= |outcomes| && written <= |data| && pos == at + written && Valid() && !ok
        invariant disk.content == Overwrite(content, at, data[..written]) && (written < |data| || data == [])
        invariant Completes(outcomes, |data|) <==> Completes(outcomes[i..], |data| - written)
      {
        assert outcomes[i..][1..] == outcomes[i + 1..];
        if outcomes[i].Failed? {
          return false;
        }
        var n := if outcomes[i].count < |data| - written then outcomes[i].count else |data| - written;
        WriteSome(data[written..written + n], content, at, data[..written]);
        assert data[..written] + data[written..written + n] == data[..written + n];
        written := written + n;
        i := i + 1;
        if written >= |data| {
          return true;
        }
      }
    }

    /** What one WriteFile call does to the file. */
    method WriteSome(some: seq<Byte>, ghost content: seq<Byte>, ghost at: nat, ghost done: seq<Byte>)
      requires Valid() && open && at <= |content| && pos == at + |done| && disk.content == Overwrite(content, at, done)
      modifies this`pos, disk`content
      ensures Valid() && pos == at + |done| + |some| && disk.content == Overwrite(content, at, done + some)
    {
      OverwriteTwice(content, at, done, some);
      OverwriteLength(disk.content, pos, some);
      hide Overwrite;
      disk.content := Overwrite(disk.content, pos, some);
      pos := pos + |some|;
    }

    /** SaveOverlayData: on success the file is the payload and a trailer that
        gives its size, and closing no longer deletes it. */
    method SaveOverlayData(hashText: seq<WChar>, total: int, current: int, now: int, seekWorks: bool,
        outcomes: seq<Written>) returns (ok: bool)
      requires Valid() && open && Overlay.IsInt64(total) && Overlay.IsInt64(current) && Overlay.IsInt64(now)
      modifies this`pos, this`discard, disk`content
      ensures Valid()
      ensures ok <==>
        && old(discard) && total > 0 && |old(disk.content)| == current > 0 && Meaning(hashText).Some?
        && seekWorks && Completes(outcomes, Overlay.SIZE)
      ensures ok ==> !discard
      ensures ok ==> Trailer(Meaning(hashText).value, total, current, now).Valid()
      ensures ok ==>
        disk.content == old(disk.content) + Overlay.Encode(Trailer(Meaning(hashText).value, total, current, now))
      ensures !ok ==> discard == old(discard)
      ensures !ok && disk.content != old(disk.content) ==>
        && Meaning(hashText).Some? && current == |old(disk.content)|
          && Trailer(Meaning(hashText).value, total, current, now).Valid()
        && exists k :: 0 <= k < Overlay.SIZE
            && disk.content == old(disk.content) + Overlay.Encode(Trailer(Meaning(hashText).value, total, current, now))[..k]
    {
      if !discard {
        return false;
      }
      if total <= 0 || current == 0 {
        return false;
      }
      var h := Construct(hashText);
      if h == None {
        return false;
      }
      MeaningFits(hashText);
      var size := |disk.content|;
      if size != current {
        return false;
      }
      if !seekWorks {
        return false;
      }
      pos := current;
      var d := Trailer(h.value, total, current, now);
      hide Meaning, Overlay.Encode;
      ok := WriteFull(Overlay.Encode(d), outcomes);
      assert old(disk.content)[..current] == old(disk.content);
      if ok {
        assert Overlay.Encode(d)[..Overlay.SIZE] == Overlay.Encode(d);
        discard := false;
      } else {
        assert disk.content == old(disk.content) + Overlay.Encode(d)[..pos - current];
      }
    }

    /** Solidified: the part file becomes the finished file. */
    method Solidified(renameWorks: bool) returns (ok: bool)
      requires Valid()
      modifies this`open, disk
      ensures Valid() && ok == (old(open) && renameWorks)
      ensures ok ==> !open && !disk.present && disk.finished == Some(old(disk.content))
      ensures !ok ==>
        && open == old(open) && disk.present == old(disk.present) && disk.content == old(disk.content)
        && disk.finished == old(disk.finished)
    {
      if !open {
        return false;
      }
      if !renameWorks {
        return false;
      }
      disk.finished := Some(disk.content);
      disk.present := false;
      open := false;
      ok := true;
    }

    /** The destructor: an open file is deleted unless its state was saved. */
    method Close()
      requires Valid()
      modifies this`open, disk`present
      ensures Valid() && !open
      ensures disk.present == (old(disk.present) && !(old(open) && discard))
    {
      if open {
        if discard {
          disk.present := false;
        }
        open := false;
      }
    }
  }

  /** Back to an empty file, unless it already is one. */
  method StartOver(disk: Disk, works: bool) returns (part: FilePart?)
    requires disk.present
    modifies disk`content
    ensures part == null <==> !works && old(disk.content) != []
    ensures disk.content == if part == null then old(disk.content) else []
    ensures part != null ==>
      fresh(part) && part.disk == disk && part.Valid() && part.open && part.discard && part.pos == 0
    ensures part != null ==> part.totalBytes == 0 && part.currentBytes == 0 && part.lasteTime == 0
  {
    if |disk.content| != 0 {
      if !works {
        return null;
      }
      disk.content := [];
    }
    part := new FilePart(disk, 0, 0, 0, 0);
  }

  /** MakeFilePart, once the file could be opened: the object and the file are
      as Open decides, or as for a fresh start if the trailer cannot be read. If
      the file cannot be cut, it stays as it is and there is no object. */
  method MakeFilePart(disk: Disk, hashText: seq<WChar>, readWorks: bool, cutWorks: bool) returns (part: FilePart?)
    modifies disk
    ensures disk.present && disk.finished == old(disk.finished)
    ensures part != null ==>
      fresh(part) && part.disk == disk && part.Valid() && part.open && part.discard && part.pos == |disk.content|
    ensures part == null <==> !cutWorks && old(disk.present) && old(disk.content) != []
    ensures part == null ==> disk.content == old(disk.content)
    ensures part != null ==> match if readWorks && old(disk.present) then Open(old(disk.content), hashText) else Fresh
      case Fresh => disk.content == [] && part.totalBytes == 0 && part.currentBytes == 0 && part.lasteTime == 0
      case Resumed(payload, total, current, recent) =>
        disk.content == payload && part.totalBytes == total && part.currentBytes == current && part.lasteTime == recent
  {
    if !disk.present {
      disk.present, disk.content := true, [];
    }
    ghost var file := disk.content;
    if |disk.content| <= Overlay.SIZE || |hashText| == 0 {
      part := StartOver(disk, cutWorks);
      return;
    }
    var h := Construct(hashText);
    if h == None {
      part := StartOver(disk, cutWorks);
      return;
    }
    var seekTo := |disk.content| - Overlay.SIZE;
    if !readWorks {
      part := StartOver(disk, cutWorks);
      return;
    }
    var d := Overlay.Decode(disk.content[seekTo..]);
    if d.magic != MAGIC || h.value.bytes != d.hash || d.hashMethod != h.value.hashMethod || d.hashsz != h.value.hashsz {
      part := StartOver(disk, cutWorks);
      return;
    }
    if !cutWorks {
      return null;
    }
    disk.content := disk.content[..seekTo];
    part := new FilePart(disk, d.totalBytes, d.currentBytes, d.lasteTime, seekTo);
  }
}
