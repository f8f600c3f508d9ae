/** A log cut into consecutive parts, one per segment file. */
module SegmentChain {
  import opened Log
  import opened Codec
  import opened SegmentFile
  import opened FileNames

  /** A segment file that has reached this size is closed by the next append. */
  const MAX_SEGMENT_SIZE: nat := 10 * 1024 * 1024

  datatype Part = Part(base: nat, msgs: seq<Message>) {
    function Next(): nat {
      base + |msgs|
    }
  }

  /** Part `p` is its stretch of the log `l`. */
  ghost predicate IsPartOf(p: Part, l: Log<Message>) {
    l.base <= p.base && p.Next() <= l.Next() && p.msgs == Slice(l, p.base, p.Next())
  }

  ghost predicate Linked(parts: seq<Part>, i: nat)
    requires i + 1 < |parts|
  {
    parts[i].Next() == parts[i + 1].base && parts[i].msgs != []
  }

  /** `parts` follow each other without gap or overlap and hold exactly the log `l`;
      only the last may be empty. */
  ghost predicate Chain(parts: seq<Part>, l: Log<Message>) {
    && parts != []
    && (forall i :: 0 <= i < |parts| ==> IsPartOf(parts[i], l))
    && (forall i :: 0 <= i < |parts| - 1 ==> Linked(parts, i))
    && parts[0].base == l.base
    && parts[|parts| - 1].Next() == l.Next() < TWO_TO_THE_64
    && Consecutive(l.base, l.recs)
  }

  lemma {:induction false} ChainIsOrdered(parts: seq<Part>, l: Log<Message>, i: nat, j: nat)
    requires Chain(parts, l) && i < j < |parts|
    ensures parts[i].base < parts[i].Next() <= parts[j].base
    decreases j - i
  {
    assert Linked(parts, i);
    if i + 1 < j {
      ChainIsOrdered(parts, l, i + 1, j);
    }
  }

  /** No offset lies in two parts. */
  lemma OwnerIsUnique(parts: seq<Part>, l: Log<Message>, offset: nat, i: nat, j: nat)
    requires Chain(parts, l) && i < |parts| && j < |parts|
    requires parts[i].base <= offset < parts[i].Next()
    requires parts[j].base <= offset < parts[j].Next()
    ensures i == j
  {
    if i < j {
      ChainIsOrdered(parts, l, i, j);
    } else if j < i {
      ChainIsOrdered(parts, l, j, i);
    }
  }

  /** Every live offset lies in some part. */
  lemma {:induction false} OwnerExists(parts: seq<Part>, l: Log<Message>, offset: nat, from: nat) returns (i: nat)
    requires Chain(parts, l) && from < |parts| && parts[from].base <= offset < l.Next()
    ensures from <= i < |parts| && parts[i].base <= offset < parts[i].Next()
    decreases |parts| - from
  {
    if offset < parts[from].Next() {
      i := from;
    } else {
      assert from + 1 < |parts|;
      assert Linked(parts, from);
      i := OwnerExists(parts, l, offset, from + 1);
    }
  }

  function Joined(parts: seq<Part>): seq<Message> {
    if parts == [] then [] else Joined(parts[..|parts| - 1]) + parts[|parts| - 1].msgs
  }

  lemma PartFits(parts: seq<Part>, l: Log<Message>, k: nat)
    requires Chain(parts, l) && k < |parts|
    ensures IsPartOf(parts[k], l)
    ensures k > 0 ==> Linked(parts, k - 1)
    ensures k == 0 ==> parts[k].base == l.base
  {
  }

  lemma SlicesJoin(l: Log<Message>, mid: nat, to: nat)
    requires l.base <= mid <= to <= l.Next()
    ensures Slice(l, l.base, to) == Slice(l, l.base, mid) + Slice(l, mid, to)
  {
  }

  lemma {:induction false} JoinedUpTo(parts: seq<Part>, l: Log<Message>, k: nat)
    requires Chain(parts, l) && k < |parts|
    ensures l.base <= parts[k].Next() <= l.Next()
    ensures Joined(parts[..k + 1]) == Slice(l, l.base, parts[k].Next())
  {
    hide Chain, Consecutive, Slice;
    PartFits(parts, l, k);
    assert parts[..k + 1][..k] == parts[..k];
    if k == 0 {
      assert Joined(parts[..0]) == [];
    } else {
      JoinedUpTo(parts, l, k - 1);
      SlicesJoin(l, parts[k].base, parts[k].Next());
    }
  }

  /** A chain determines its log. */
  lemma ChainJoins(parts: seq<Part>, l: Log<Message>)
    requires Chain(parts, l)
    ensures l == Log(parts[0].base, Joined(parts))
  {
    JoinedUpTo(parts, l, |parts| - 1);
    assert parts[..|parts|] == parts;
  }

  lemma AppendToLast(parts: seq<Part>, l: Log<Message>, m: Message)
    requires Chain(parts, l) && m.offset == l.Next() && l.Next() + 1 < TWO_TO_THE_64
    ensures var last := |parts| - 1;
            Chain(parts[last := Part(parts[last].base, parts[last].msgs + [m])], Log(l.base, l.recs + [m]))
  {
    var last := |parts| - 1;
    var longer := parts[last := Part(parts[last].base, parts[last].msgs + [m])];
    forall i | 0 <= i < |longer| - 1 ensures Linked(longer, i) {
      assert Linked(parts, i);
    }
    forall i | 0 <= i < |longer| ensures IsPartOf(longer[i], Log(l.base, l.recs + [m])) {
      assert IsPartOf(parts[i], l);
    }
  }

  lemma AddEmptyPart(parts: seq<Part>, l: Log<Message>)
    requires Chain(parts, l) && parts[|parts| - 1].msgs != []
    ensures Chain(parts + [Part(l.Next(), [])], l)
  {
    var longer := parts + [Part(l.Next(), [])];
    forall i | 0 <= i < |longer| - 1 ensures Linked(longer, i) {
      if i < |parts| - 1 {
        assert Linked(parts, i);
        assert longer[i] == parts[i] && longer[i + 1] == parts[i + 1];
      }
    }
    forall i | 0 <= i < |longer| ensures IsPartOf(longer[i], l) {
      if i < |parts| {
        assert longer[i] == parts[i] && IsPartOf(parts[i], l);
      } else {
        assert Slice(l, l.Next(), l.Next()) == [];
      }
    }
    assert longer[|longer| - 1].Next() == l.Next() && longer[0] == parts[0];
  }

  lemma DropLastRecord(parts: seq<Part>, l: Log<Message>)
    requires Chain(parts, l) && parts[|parts| - 1].msgs != []
    ensures l.recs != []
    ensures var last, n := |parts| - 1, |parts[|parts| - 1].msgs|;
            Chain(parts[last := Part(parts[last].base, parts[last].msgs[..n - 1])],
                  Log(l.base, l.recs[..|l.recs| - 1]))
  {
    var last := |parts| - 1;
    var n := |parts[last].msgs|;
    var shorter := parts[last := Part(parts[last].base, parts[last].msgs[..n - 1])];
    var l' := Log(l.base, l.recs[..|l.recs| - 1]);
    assert IsPartOf(parts[last], l);
    forall i | 0 <= i < |shorter| - 1 ensures Linked(shorter, i) {
      assert Linked(parts, i);
    }
    forall i | 0 <= i < |shorter| ensures IsPartOf(shorter[i], l') {
      PartShrinks(parts, l, i);
    }
  }

  lemma PartShrinks(parts: seq<Part>, l: Log<Message>, i: nat)
    requires Chain(parts, l) && parts[|parts| - 1].msgs != [] && i < |parts|
    ensures l.recs != []
    ensures var p := parts[i];
            IsPartOf(if i < |parts| - 1 then p else Part(p.base, p.msgs[..|p.msgs| - 1]),
                     Log(l.base, l.recs[..|l.recs| - 1]))
  {
    var last := |parts| - 1;
    assert IsPartOf(parts[last], l) && IsPartOf(parts[i], l);
    if i < last {
      ChainIsOrdered(parts, l, i, last);
    }
  }

  /** A part that starts at `from` or later is a part of the log from there on. */
  lemma TailKeepsPart(p: Part, l: Log<Message>, from: nat)
    requires IsPartOf(p, l) && l.base <= from <= p.base
    ensures IsPartOf(p, Log(from, l.recs[from - l.base..]))
  {
  }

  lemma PartOfTail(parts: seq<Part>, l: Log<Message>, k: nat, i: nat)
    requires Chain(parts, l) && k <= i < |parts|
    ensures l.base <= parts[k].base <= l.Next()
    ensures IsPartOf(parts[i], Log(parts[k].base, l.recs[parts[k].base - l.base..]))
  {
    if k < i {
      ChainIsOrdered(parts, l, k, i);
    }
    hide Chain, Slice;
    PartFits(parts, l, k);
    PartFits(parts, l, i);
    TailKeepsPart(parts[i], l, parts[k].base);
  }

  lemma DropFirstParts(parts: seq<Part>, l: Log<Message>, k: nat)
    requires Chain(parts, l) && k < |parts|
    ensures l.base <= parts[k].base <= l.Next()
    ensures Chain(parts[k..], Log(parts[k].base, l.recs[parts[k].base - l.base..]))
  {
    hide IsPartOf;
    PartOfTail(parts, l, k, k);
    var shorter := parts[k..];
    forall i | 0 <= i < |shorter| - 1 ensures Linked(shorter, i) {
      assert Linked(parts, k + i);
    }
    forall i | 0 <= i < |shorter| ensures IsPartOf(shorter[i], Log(parts[k].base, l.recs[parts[k].base - l.base..])) {
      PartOfTail(parts, l, k, k + i);
    }
  }

  // --- Segment sizes ---

  /** A part passes the size limit with its last record at the earliest; a closed one has reached it. */
  ghost predicate SizedPart(p: Part, closed: bool) {
    && AllEncodable(p.msgs)
    && (closed ==> |EncodeAll(p.msgs)| >= MAX_SEGMENT_SIZE)
    && (p.msgs != [] ==> |EncodeAll(p.msgs[..|p.msgs| - 1])| < MAX_SEGMENT_SIZE)
  }

  /** All parts but the last are closed. */
  ghost predicate SizedParts(parts: seq<Part>) {
    forall i :: 0 <= i < |parts| ==> SizedPart(parts[i], i < |parts| - 1)
  }

  lemma SizedAfterAppend(parts: seq<Part>, m: Message)
    requires parts != [] && SizedParts(parts) && Encodable(m)
    requires AllEncodable(parts[|parts| - 1].msgs) && |EncodeAll(parts[|parts| - 1].msgs)| < MAX_SEGMENT_SIZE
    ensures var last := |parts| - 1; SizedParts(parts[last := Part(parts[last].base, parts[last].msgs + [m])])
  {
    hide EncodeAll;
    var msgs := parts[|parts| - 1].msgs;
    assert (msgs + [m])[..|msgs|] == msgs;
  }

  lemma SizedAfterRotation(parts: seq<Part>, base: nat)
    requires parts != [] && SizedParts(parts)
    requires AllEncodable(parts[|parts| - 1].msgs) && |EncodeAll(parts[|parts| - 1].msgs)| >= MAX_SEGMENT_SIZE
    ensures SizedParts(parts + [Part(base, [])])
  {
    hide EncodeAll;
    var longer := parts + [Part(base, [])];
    forall i | 0 <= i < |longer| ensures SizedPart(longer[i], i < |longer| - 1) {
      if i < |parts| {
        assert longer[i] == parts[i] && SizedPart(parts[i], i < |parts| - 1);
      }
    }
  }

  lemma SizedAfterDrop(parts: seq<Part>)
    requires parts != [] && SizedParts(parts) && parts[|parts| - 1].msgs != []
    ensures var last, n := |parts| - 1, |parts[|parts| - 1].msgs|;
            SizedParts(parts[last := Part(parts[last].base, parts[last].msgs[..n - 1])])
  {
    hide Encode;
    var last := |parts| - 1;
    assert SizedPart(parts[last], false);
    var front := parts[last].msgs[..|parts[last].msgs| - 1];
    if front != [] {
      assert |EncodeAll(front[..|front| - 1])| <= |EncodeAll(front)|;
    }
  }

  lemma SizedSuffix(parts: seq<Part>, k: nat)
    requires SizedParts(parts) && k < |parts|
    ensures SizedParts(parts[k..])
  {
    hide SizedPart;
    forall i | 0 <= i < |parts[k..]| ensures SizedPart(parts[k..][i], i < |parts[k..]| - 1) {
      assert SizedPart(parts[k + i], k + i < |parts| - 1);
    }
  }

  // --- The directory of a partition ---

  /** `files`, in chain order, are what the parts leave on disk, each up to a torn last write. */
  ghost predicate FilesHold(files: seq<File>, parts: seq<Part>) {
    && |files| == |parts|
    && forall i :: 0 <= i < |files| ==>
         files[i].name == FileName(parts[i].base) && HoldsRecords(parts[i].base, files[i].bytes, parts[i].msgs)
  }

  /** What reopening a directory gives: a log, with segments of proper size if `sized`, whose last
      record lies in the active segment if and only if `lastActive`. */
  datatype Image = Image(log: Log<Message>, sized: bool, lastActive: bool)

  ghost predicate IsImage(parts: seq<Part>, image: Image) {
    && Chain(parts, image.log)
    && (image.sized ==> SizedParts(parts))
    && (image.lastActive <==> parts[|parts| - 1].msgs != [])
  }

  /** The directory recovers to this image. */
  ghost predicate Recovers(files: seq<File>, image: Image) {
    exists parts :: FilesHold(files, parts) && IsImage(parts, image)
  }

  /** The segment files of a directory listing. */
  function LogFiles(listing: seq<File>): seq<File> {
    if listing == [] then []
    else
      var last := listing[|listing| - 1];
      LogFiles(listing[..|listing| - 1]) + (if HasLogSuffix(last.name) then [last] else [])
  }

  /** Exactly the files whose names end in ".log" are kept, each as often as it is listed. */
  lemma {:induction false} LogFilesCount(listing: seq<File>, f: File)
    ensures multiset(LogFiles(listing))[f] == if HasLogSuffix(f.name) then multiset(listing)[f] else 0
  {
    if listing != [] {
      LogFilesCount(listing[..|listing| - 1], f);
      assert listing == listing[..|listing| - 1] + [listing[|listing| - 1]];
    }
  }

  /** The directory lists these files, in any order, and nothing else with a name that ends in ".log". */
  ghost predicate Lists(listing: seq<File>, files: seq<File>) {
    exists others: seq<File> ::
      multiset(listing) == multiset(files) + multiset(others) && forall f :: f in others ==> !HasLogSuffix(f.name)
  }

  lemma LogFilesOf(listing: seq<File>, files: seq<File>)
    requires Lists(listing, files) && forall f :: f in files ==> HasLogSuffix(f.name)
    ensures multiset(LogFiles(listing)) == multiset(files)
  {
    var others: seq<File> :|
      multiset(listing) == multiset(files) + multiset(others) && forall f :: f in others ==> !HasLogSuffix(f.name);
    forall f ensures multiset(LogFiles(listing))[f] == multiset(files)[f] {
      LogFilesCount(listing, f);
      if HasLogSuffix(f.name) {
        assert f !in multiset(others);
      } else {
        assert f !in multiset(files);
      }
    }
  }

  lemma NoLogFiles(listing: seq<File>)
    requires forall f :: f in listing ==> !HasLogSuffix(f.name)
    ensures LogFiles(listing) == []
  {
    forall f ensures f !in multiset(LogFiles(listing)) {
      LogFilesCount(listing, f);
      assert f in multiset(listing) ==> f in listing;
    }
    assert forall f :: f in LogFiles(listing) ==> f in multiset(LogFiles(listing));
  }

  /** Whatever order the directory is listed in, and whatever else lies in it, sorting the names
      puts the segment files in chain order, and each name parses to its own base offset. */
  lemma SortedListingIsChainOrder(listing: seq<File>, files: seq<File>, parts: seq<Part>, l: Log<Message>)
    requires Chain(parts, l) && FilesHold(files, parts)
    requires Lists(listing, files)
    ensures SortByName(LogFiles(listing)) == files
    ensures forall i :: 0 <= i < |files| ==> ParseName(files[i].name) == Some(parts[i].base)
  {
    forall i | 0 <= i < |files|
      ensures HasLogSuffix(files[i].name) && ParseName(files[i].name) == Some(parts[i].base)
      ensures parts[i].base < TWO_TO_THE_64
    {
      assert IsPartOf(parts[i], l);
      NameRoundTrip(parts[i].base);
    }
    forall i, j | 0 <= i < j < |files| ensures LexLess(files[i].name, files[j].name) {
      ChainIsOrdered(parts, l, i, j);
      NameOrderIsOffsetOrder(parts[i].base, parts[j].base);
    }
    LogFilesOf(listing, files);
    SortFindsOrder(LogFiles(listing), files);
  }
}
