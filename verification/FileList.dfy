/** The directory listing: the bytes `handle_file_list` sends and what `parseFileList` makes of them. */
module FileList {
  import opened Bytes
  import opened Frame

  const LIST_HEADER: nat := 66     // status, count, message[64]
  const INFO_SIZE: nat := 272      // name[256], size, mode, mtime, is_dir, padding[3]
  const NAME_SIZE: nat := 256
  const MAX_FILES: nat := 255

  /** What stat reports. */
  datatype Stat = Stat(size: nat, mode: nat, mtime: nat, isDir: bool)

  /** One name that readdir returns, and its stat when that succeeds. */
  datatype DirEntry = DirEntry(name: seq<byte>, stat: Option<Stat>)

  /** The bytes of a stack slot that the code leaves as they were: the last name byte and the padding. */
  datatype Slack = Slack(last: byte, padding: seq<byte>)

  /** One filled `file_info_t`. */
  datatype Slot = Slot(name: seq<byte>, stat: Stat, slack: Slack)

  datatype FileInfo = FileInfo(name: seq<byte>, size: nat, mode: nat, mtime: nat, isDir: bool)

  ghost predicate NulFree(s: seq<byte>) { forall i | 0 <= i < |s| :: s[i] != 0 }

  // --- The server's side ---

  /** strncpy of at most 255 bytes into an unzeroed buffer of 256. */
  function NameField(name: seq<byte>, last: byte): (f: seq<byte>)
    ensures |f| == NAME_SIZE
  {
    (if |name| >= 255 then name[..255] else name + Zeros(255 - |name|)) + [last]
  }

  function Truncated(n: nat): nat { n % Pow256(4) }

  ghost predicate ValidSlot(s: Slot) { |s.slack.padding| == 3 }

  function EncodeSlot(s: Slot): (b: seq<byte>)
    requires |s.slack.padding| == 3
    ensures |b| == INFO_SIZE
  {
    NameField(s.name, s.slack.last) + LENat(Truncated(s.stat.size), 4) + LENat(Truncated(s.stat.mode), 4)
      + LENat(Truncated(s.stat.mtime), 4) + [if s.stat.isDir then 1 else 0] + s.slack.padding
  }

  ghost predicate AllValid(slots: seq<Slot>) { forall i | 0 <= i < |slots| :: ValidSlot(slots[i]) }

  function EncodeSlots(slots: seq<Slot>): (b: seq<byte>)
    requires AllValid(slots)
    ensures |b| == INFO_SIZE * |slots|
  {
    if slots == [] then [] else EncodeSlot(slots[0]) + EncodeSlots(slots[1..])
  }

  /** The whole payload: status, count, the message as printed, the slots. */
  function EncodeList(slots: seq<Slot>, message: seq<byte>): (b: seq<byte>)
    requires |slots| <= MAX_FILES && AllValid(slots) && |message| == 64
    ensures |b| == LIST_HEADER + INFO_SIZE * |slots|
  {
    [0, ToByte(|slots|)] + message + EncodeSlots(slots)
  }

  /** The head of the payload, byte by byte: success, the count, the message; and how long the whole is. */
  lemma ListHead(slots: seq<Slot>, message: seq<byte>)
    requires |slots| <= MAX_FILES && AllValid(slots) && |message| == 64
    ensures var b := EncodeList(slots, message);
      |b| == 66 + 272 * |slots| && b[0] == 0 && ByteValue(b[1]) == |slots| && b[2..66] == message
  {
    hide EncodeSlots, ToByte, ByteValue;
  }

  predicate IsDots(name: seq<byte>) { name == [0x2E] || name == [0x2E, 0x2E] }

  /** The entries that are listed: not the two dot entries, stat succeeded, the first 255 of them. */
  function Listed(entries: seq<DirEntry>, room: nat): seq<(seq<byte>, Stat)> {
    if entries == [] || room == 0 then []
    else if IsDots(entries[0].name) || entries[0].stat.None? then Listed(entries[1..], room)
    else [(entries[0].name, entries[0].stat.value)] + Listed(entries[1..], room - 1)
  }

  function Fill(files: seq<(seq<byte>, Stat)>, slack: seq<Slack>): (slots: seq<Slot>)
    requires |files| <= |slack|
    ensures |slots| == |files|
    ensures forall i | 0 <= i < |files| :: slots[i] == Slot(files[i].0, files[i].1, slack[i])
  {
    seq(|files|, i requires 0 <= i < |files| => Slot(files[i].0, files[i].1, slack[i]))
  }

  predicate Rising(at: seq<nat>) { forall j, k | 0 <= j < k < |at| :: at[j] < at[k] }

  /** The files are what the entries at these positions say; each has a stat and is neither of the two dot entries. */
  ghost predicate Tells(entries: seq<DirEntry>, at: seq<nat>, files: seq<(seq<byte>, Stat)>) {
    && |at| == |files|
    && forall j | 0 <= j < |at| ::
      && at[j] < |entries| && entries[at[j]].stat.Some?
      && entries[at[j]].name != [0x2E] && entries[at[j]].name != [0x2E, 0x2E]
      && files[j] == (entries[at[j]].name, entries[at[j]].stat.value)
  }

  /** An entry is passed over only as a dot entry, without a stat, or behind the last position once there is no room. */
  ghost predicate Complete(entries: seq<DirEntry>, at: seq<nat>, full: bool) {
    forall k | 0 <= k < |entries| && k !in at ::
      || entries[k].name == [0x2E] || entries[k].name == [0x2E, 0x2E] || entries[k].stat.None?
      || (full && forall j | 0 <= j < |at| :: at[j] < k)
  }

  /** The files at increasing positions `at` of the directory, up to `limit` of them and no others. */
  ghost predicate Picks(entries: seq<DirEntry>, at: seq<nat>, files: seq<(seq<byte>, Stat)>, limit: nat) {
    Rising(at) && Tells(entries, at, files) && Complete(entries, at, |at| == limit) && |at| <= limit
  }

  /** The same positions with one more entry in front. */
  function Later(at: seq<nat>): (r: seq<nat>)
    ensures |r| == |at|
  {
    seq(|at|, j requires 0 <= j < |at| => at[j] + 1)
  }

  lemma LaterHas(at: seq<nat>, k: nat)
    ensures k > 0 && k - 1 in at ==> k in Later(at)
  {
    if k > 0 && k - 1 in at {
      var j :| 0 <= j < |at| && at[j] == k - 1;
      assert Later(at)[j] == k;
    }
  }

  lemma PassOver(entries: seq<DirEntry>, at: seq<nat>, files: seq<(seq<byte>, Stat)>, room: nat)
    requires entries != [] && (IsDots(entries[0].name) || entries[0].stat.None?)
    requires Picks(entries[1..], at, files, room)
    ensures Picks(entries, Later(at), files, room)
  {
    forall k | 0 <= k < |entries| && k !in Later(at)
      ensures || entries[k].name == [0x2E] || entries[k].name == [0x2E, 0x2E] || entries[k].stat.None?
        || (|at| == room && forall j | 0 <= j < |at| :: Later(at)[j] < k)
    {
      LaterHas(at, k);
      if k > 0 { assert entries[1..][k - 1] == entries[k]; }
    }
  }

  lemma TakeIn(entries: seq<DirEntry>, at: seq<nat>, files: seq<(seq<byte>, Stat)>, room: nat)
    requires entries != [] && room > 0 && !IsDots(entries[0].name) && entries[0].stat.Some?
    requires Picks(entries[1..], at, files, room - 1)
    ensures Picks(entries, [0] + Later(at), [(entries[0].name, entries[0].stat.value)] + files, room)
  {
    TellsMore(entries, at, files);
    hide Rising, Tells, IsDots;
    RisesMore(at);
    CompleteMore(entries, at, |at| == room - 1);
  }

  lemma RisesMore(at: seq<nat>)
    ensures Rising(at) ==> Rising([0] + Later(at))
  {
    var all := [0] + Later(at);
    assert forall j | 1 <= j < |all| :: all[j] == at[j - 1] + 1;
  }

  lemma TellsMore(entries: seq<DirEntry>, at: seq<nat>, files: seq<(seq<byte>, Stat)>)
    requires entries != [] && !IsDots(entries[0].name) && entries[0].stat.Some? && Tells(entries[1..], at, files)
    ensures Tells(entries, [0] + Later(at), [(entries[0].name, entries[0].stat.value)] + files)
  {
    var all := [0] + Later(at);
    assert forall j | 1 <= j < |all| :: all[j] == at[j - 1] + 1 && entries[all[j]] == entries[1..][at[j - 1]];
  }

  lemma CompleteMore(entries: seq<DirEntry>, at: seq<nat>, full: bool)
    requires entries != [] && Complete(entries[1..], at, full)
    ensures Complete(entries, [0] + Later(at), full)
  {
    var all := [0] + Later(at);
    assert forall j | 1 <= j < |all| :: all[j] == at[j - 1] + 1;
    forall k | 0 <= k < |entries| && k !in all
      ensures || entries[k].name == [0x2E] || entries[k].name == [0x2E, 0x2E] || entries[k].stat.None?
        || (full && forall j | 0 <= j < |all| :: all[j] < k)
    {
      assert all[0] == 0;
      LaterHas(at, k);
      assert entries[1..][k - 1] == entries[k];
    }
  }

  /** The listing is the entries at increasing positions that are no dot entries and have a stat. */
  lemma {:induction false} ListedPicks(entries: seq<DirEntry>, room: nat) returns (at: seq<nat>)
    ensures Picks(entries, at, Listed(entries, room), room)
    decreases |entries|
  {
    ListedNext(entries, room);
    hide IsDots, Listed, Picks;
    if entries == [] || room == 0 {
      at := [];
      PicksNone(entries, room);
    } else {
      var listed := !IsDots(entries[0].name) && entries[0].stat.Some?;
      var rest := ListedPicks(entries[1..], if listed then room - 1 else room);
      if listed {
        TakeIn(entries, rest, Listed(entries[1..], room - 1), room);
        at := [0] + Later(rest);
      } else {
        PassOver(entries, rest, Listed(entries[1..], room), room);
        at := Later(rest);
      }
    }
  }

  lemma PicksNone(entries: seq<DirEntry>, room: nat)
    requires entries == [] || room == 0
    ensures Picks(entries, [], [], room)
  {
  }

  lemma ListedNext(entries: seq<DirEntry>, room: nat)
    ensures Listed(entries, room)
      == if entries == [] || room == 0 then []
         else if IsDots(entries[0].name) || entries[0].stat.None? then Listed(entries[1..], room)
         else [(entries[0].name, entries[0].stat.value)] + Listed(entries[1..], room - 1)
  {
    hide IsDots;
  }

  /** The readdir loop: the first 255 entries that are no dot entries and have a stat, in order. */
  method CollectFiles(entries: seq<DirEntry>) returns (files: seq<(seq<byte>, Stat)>, ghost at: seq<nat>)
    ensures files == Listed(entries, MAX_FILES) && |files| <= MAX_FILES
    ensures Picks(entries, at, files, 255)
  {
    hide IsDots, Listed, Picks;
    files := [];
    var n := 0;
    assert entries[0..] == entries;
    while n < |entries| && |files| < MAX_FILES
      invariant 0 <= n <= |entries|
      invariant |files| <= MAX_FILES
      invariant Listed(entries, MAX_FILES) == files + Listed(entries[n..], MAX_FILES - |files|)
    {
      var entry := entries[n];
      ListedNext(entries[n..], MAX_FILES - |files|);
      assert entries[n..][1..] == entries[n + 1..];
      if !IsDots(entry.name) && entry.stat.Some? {
        Reassociate(files, (entry.name, entry.stat.value), Listed(entries[n + 1..], MAX_FILES - |files| - 1));
        files := files + [(entry.name, entry.stat.value)];
      }
      n := n + 1;
    }
    ListedNext(entries[n..], MAX_FILES - |files|);
    at := ListedPicks(entries, MAX_FILES);
  }

  lemma Reassociate<T>(a: seq<T>, x: T, b: seq<T>)
    ensures a + ([x] + b) == a + [x] + b
  {
  }

  /** With the records from `i` on behind it, the payload is complete. */
  ghost predicate Lacks(payload: seq<byte>, slots: seq<Slot>, i: nat, target: seq<byte>) {
    i <= |slots| && AllValid(slots[i..]) && payload + EncodeSlots(slots[i..]) == target
  }

  lemma LacksAll(slots: seq<Slot>, message: seq<byte>)
    requires |slots| <= MAX_FILES && AllValid(slots) && |message| == 64
    ensures Lacks([0, ToByte(|slots|)] + message, slots, 0, EncodeList(slots, message))
  {
    hide EncodeSlots, ToByte;
    assert slots[0..] == slots;
  }

  lemma LacksNext(payload: seq<byte>, slots: seq<Slot>, i: nat, target: seq<byte>)
    requires Lacks(payload, slots, i, target) && i < |slots|
    ensures |slots[i].slack.padding| == 3 && Lacks(payload + EncodeSlot(slots[i]), slots, i + 1, target)
  {
    hide EncodeSlot;
    assert slots[i..][0] == slots[i] && slots[i..][1..] == slots[i + 1..];
    assert ValidSlot(slots[i..][0]);
    var rest := EncodeSlots(slots[i + 1..]);
    assert payload + (EncodeSlot(slots[i]) + rest) == payload + EncodeSlot(slots[i]) + rest;
  }

  lemma LacksNone(payload: seq<byte>, slots: seq<Slot>, target: seq<byte>)
    requires Lacks(payload, slots, |slots|, target)
    ensures payload == target
  {
    assert slots[|slots|..] == [];
  }

  lemma FilledValid(files: seq<(seq<byte>, Stat)>, slack: seq<Slack>)
    requires |files| <= |slack| && forall i | 0 <= i < |slack| :: |slack[i].padding| == 3
    ensures AllValid(Fill(files, slack))
  {
  }

  /** The response; `slack` is what the stack held, `message` what snprintf printed. */
  method BuildListing(entries: seq<DirEntry>, slack: seq<Slack>, message: seq<byte>) returns (payload: seq<byte>)
    requires |slack| == MAX_FILES && |message| == 64
    requires forall i | 0 <= i < |slack| :: |slack[i].padding| == 3
    ensures |Listed(entries, MAX_FILES)| <= MAX_FILES
    ensures payload == EncodeList(Fill(Listed(entries, MAX_FILES), slack), message)
  {
    hide EncodeSlot, EncodeSlots, EncodeList, Listed, Fill, ToByte, Lacks, AllValid, Picks;
    var files, _ := CollectFiles(entries);
    var slots := Fill(files, slack);
    FilledValid(files, slack);
    payload := [0, ToByte(|files|)] + message;
    LacksAll(slots, message);
    ghost var target := EncodeList(slots, message);
    var i := 0;
    while i < |slots|
      invariant 0 <= i <= |slots| && Lacks(payload, slots, i, target)
    {
      LacksNext(payload, slots, i, target);
      payload := payload + EncodeSlot(slots[i]);
      i := i + 1;
    }
    LacksNone(payload, slots, target);
  }

  const FILE_LIST_RESP: bv16 := 0x0202

  /** The end of `handle_file_list`: the listing goes through `send_response`. */
  method SendListing(entries: seq<DirEntry>, slack: seq<Slack>, message: seq<byte>, seqNo: bv16)
    returns (sent: Option<seq<byte>>)
    requires |slack| == MAX_FILES && |message| == 64
    requires forall i | 0 <= i < |slack| :: |slack[i].padding| == 3
    ensures |Listed(entries, MAX_FILES)| <= MAX_FILES
    ensures sent == Response(0x0202, seqNo, EncodeList(Fill(Listed(entries, MAX_FILES), slack), message))
  {
    hide EncodeSlots, Listed, FrameBytes;
    var payload := BuildListing(entries, slack, message);
    var data := new byte[|payload|];
    Store(data, 0, payload);
    assert data[..] == payload;
    sent := SendResponse(FILE_LIST_RESP, seqNo, 0, message, data);
  }

  /** The first files of a longer listing. */
  lemma {:induction false} ListedPrefix(entries: seq<DirEntry>, room: nat, more: nat)
    requires room <= more
    ensures var all, some := Listed(entries, more), Listed(entries, room);
      some == if |all| <= room then all else all[..room]
    decreases |entries|
  {
    hide IsDots;
    if entries != [] && room > 0 {
      var listed := !IsDots(entries[0].name) && entries[0].stat.Some?;
      ListedPrefix(entries[1..], if listed then room - 1 else room, if listed then more - 1 else more);
    }
  }

  /** At most one file an entry. */
  lemma {:induction false} ListedBound(entries: seq<DirEntry>, room: nat)
    ensures |Listed(entries, room)| <= |entries| && |Listed(entries, room)| <= room
    decreases |entries|
  {
    hide IsDots;
    if entries != [] && room > 0 {
      ListedBound(entries[1..], room);
      ListedBound(entries[1..], room - 1);
    }
  }

  // --- The client's side ---

  /** indexOf(0), or the length when there is none. */
  function NulPosition(s: seq<byte>): (p: nat)
    ensures p <= |s|
    ensures p < |s| ==> s[p] == 0
    ensures forall i | 0 <= i < p :: s[i] != 0
  {
    if s == [] || s[0] == 0 then 0 else 1 + NulPosition(s[1..])
  }

  /** The name is cut at the first NUL, unless that is the very first byte. */
  function DecodeName(f: seq<byte>): seq<byte> {
    var p := NulPosition(f);
    if 0 < p < |f| then f[..p] else f
  }

  function DecodeInfo(b: seq<byte>): FileInfo
    requires |b| == INFO_SIZE
  {
    FileInfo(DecodeName(b[..256]), FromLENat(b[256..260]), FromLENat(b[260..264]), FromLENat(b[264..268]), b[268] != 0)
  }

  /** The records from `i` on, up to `count` of them, as far as the payload reaches. */
  function DecodeFrom(payload: seq<byte>, i: nat, count: nat): seq<FileInfo>
    decreases count - i
  {
    var offset := LIST_HEADER + i * INFO_SIZE;
    if i >= count || offset + INFO_SIZE > |payload| then []
    else [DecodeInfo(payload[offset..offset + INFO_SIZE])] + DecodeFrom(payload, i + 1, count)
  }

  function DecodeList(payload: seq<byte>): Option<seq<FileInfo>> {
    if |payload| < 2 then None else Some(DecodeFrom(payload, 0, ByteValue(payload[1])))
  }

  /** What is read and what is still to be read make the same list. */
  ghost predicate Reads(files: seq<FileInfo>, payload: seq<byte>, i: nat, count: nat, all: seq<FileInfo>) {
    files + DecodeFrom(payload, i, count) == all
  }

  lemma ReadNone(payload: seq<byte>, count: nat)
    ensures Reads([], payload, 0, count, DecodeFrom(payload, 0, count))
  {
    hide DecodeFrom;
  }

  lemma ReadNext(files: seq<FileInfo>, payload: seq<byte>, i: nat, count: nat, all: seq<FileInfo>)
    requires Reads(files, payload, i, count, all)
    requires i < count && LIST_HEADER + i * INFO_SIZE + INFO_SIZE <= |payload|
    ensures var offset := LIST_HEADER + i * INFO_SIZE;
      Reads(files + [DecodeInfo(payload[offset..offset + INFO_SIZE])], payload, i + 1, count, all)
  {
    hide DecodeInfo, DecodeFrom;
    DecodeFromIs(payload, i, count);
    var offset := LIST_HEADER + i * INFO_SIZE;
    Reassociate(files, DecodeInfo(payload[offset..offset + INFO_SIZE]), DecodeFrom(payload, i + 1, count));
  }

  lemma ReadAll(files: seq<FileInfo>, payload: seq<byte>, i: nat, count: nat, all: seq<FileInfo>)
    requires Reads(files, payload, i, count, all)
    requires i >= count || LIST_HEADER + i * INFO_SIZE + INFO_SIZE > |payload|
    ensures files == all
  {
    hide DecodeInfo, DecodeFrom;
    DecodeFromIs(payload, i, count);
    assert files + [] == files;
  }

  lemma DecodeListIs(payload: seq<byte>)
    ensures |payload| < 2 ==> DecodeList(payload) == None
    ensures |payload| >= 2 ==> DecodeList(payload) == Some(DecodeFrom(payload, 0, ByteValue(payload[1])))
  {
    hide DecodeFrom;
  }

  /** `parseFileList`. */
  method ParseFileList(payload: seq<byte>) returns (r: Option<seq<FileInfo>>)
    ensures r == DecodeList(payload)
  {
    hide *;
    DecodeListIs(payload);
    if |payload| < 2 { return None; }
    var count := ByteValue(payload[1]);
    ghost var all := DecodeFrom(payload, 0, count);
    var files := [];
    var i := 0;
    ReadNone(payload, count);
    while i < count && i < 255 && LIST_HEADER + i * INFO_SIZE + INFO_SIZE <= |payload|
      invariant 0 <= i <= 255 && Reads(files, payload, i, count, all)
    {
      ReadNext(files, payload, i, count, all);
      var offset := LIST_HEADER + i * INFO_SIZE;
      files := files + [DecodeInfo(payload[offset..offset + INFO_SIZE])];
      i := i + 1;
    }
    ReadAll(files, payload, i, count, all);
    return Some(files);
  }

  // --- The round trip ---

  /** What the client should see of a file. */
  function InfoOf(name: seq<byte>, stat: Stat): FileInfo {
    FileInfo(name, stat.size, stat.mode, stat.mtime, stat.isDir)
  }

  /** Exactly the names of 1 to 254 bytes survive, and those of 255 when the byte behind them happens to be zero. */
  predicate NameSurvives(name: seq<byte>, last: byte) {
    1 <= |name| <= 255 && (|name| == 255 ==> last == 0)
  }

  /** The numbers of 32 bits survive. */
  predicate StatSurvives(stat: Stat) {
    stat.size < UINT32_SIZE && stat.mode < UINT32_SIZE && stat.mtime < UINT32_SIZE
  }

  predicate Survives(s: Slot) {
    NameSurvives(s.name, s.slack.last) && StatSurvives(s.stat)
  }

  lemma NameRoundTrip(name: seq<byte>, last: byte)
    requires NulFree(name) && |name| <= 255
    ensures DecodeName(NameField(name, last)) == name <==> NameSurvives(name, last)
  {
    var f := NameField(name, last);
    var p := NulPosition(f);
    assert forall k | 0 <= k < |name| :: f[k] == name[k];
    assert p >= |name|;
    if |name| < 255 {
      assert f[|name|] == 0;
    } else {
      assert f[255] == last;
    }
    assert f[..|name|] == name;
  }

  lemma CountRoundTrip(n: nat)
    ensures FromLENat(LENat(Truncated(n), 4)) == n % UINT32_SIZE
    ensures n % UINT32_SIZE == n <==> n < UINT32_SIZE
  {
    assert Pow256(4) == UINT32_SIZE;
    LENatRoundTrip(Truncated(n), 4);
  }

  lemma SlotSlices(s: Slot)
    requires ValidSlot(s)
    ensures var b := EncodeSlot(s);
      && b[..256] == NameField(s.name, s.slack.last)
      && b[256..260] == LENat(Truncated(s.stat.size), 4) && b[260..264] == LENat(Truncated(s.stat.mode), 4)
      && b[264..268] == LENat(Truncated(s.stat.mtime), 4) && b[268] == if s.stat.isDir then 1 else 0
  {
    hide NameField, LENat, Truncated;
  }

  /**
   One record: what comes back of the numbers is modulo 2^32, and the file is seen as it is exactly when it survives.
   */
  lemma SlotRoundTrip(s: Slot)
    requires ValidSlot(s) && NulFree(s.name) && |s.name| <= 255
    ensures var i := DecodeInfo(EncodeSlot(s));
      && i == FileInfo(i.name, s.stat.size % UINT32_SIZE, s.stat.mode % UINT32_SIZE, s.stat.mtime % UINT32_SIZE,
                       s.stat.isDir)
      && (i.name == s.name <==> NameSurvives(s.name, s.slack.last))
      && (i == InfoOf(s.name, s.stat) <==> Survives(s))
  {
    SlotSlices(s);
    hide NameField, LENat, FromLENat, Truncated, DecodeName, EncodeSlot, NameSurvives, NulFree;
    NameRoundTrip(s.name, s.slack.last);
    CountRoundTrip(s.stat.size);
    CountRoundTrip(s.stat.mode);
    CountRoundTrip(s.stat.mtime);
  }

  lemma {:induction false} SlotAt(slots: seq<Slot>, i: nat)
    requires AllValid(slots) && i < |slots|
    ensures EncodeSlots(slots)[INFO_SIZE * i..INFO_SIZE * i + INFO_SIZE] == EncodeSlot(slots[i])
    decreases i
  {
    hide EncodeSlot;
    if i > 0 {
      SlotAt(slots[1..], i - 1);
      assert EncodeSlots(slots)[INFO_SIZE..] == EncodeSlots(slots[1..]);
    }
  }

  lemma SliceBehind(head: seq<byte>, body: seq<byte>, lo: nat, hi: nat)
    requires lo <= hi <= |body|
    ensures |head + body| == |head| + |body| && (head + body)[|head| + lo..|head| + hi] == body[lo..hi]
  {
  }

  /** Record `i` lies where the client looks for it. */
  lemma RecordAt(slots: seq<Slot>, message: seq<byte>, i: nat)
    requires |slots| <= MAX_FILES && AllValid(slots) && |message| == 64 && i < |slots|
    ensures var offset, payload := LIST_HEADER + i * INFO_SIZE, EncodeList(slots, message);
      offset + INFO_SIZE <= |payload| && payload[offset..offset + INFO_SIZE] == EncodeSlot(slots[i])
  {
    SlotAt(slots, i);
    var head: seq<byte> := [0, ToByte(|slots|)] + message;
    assert EncodeList(slots, message) == head + EncodeSlots(slots);
    hide EncodeSlot, EncodeSlots, EncodeList, ToByte;
    SliceBehind(head, EncodeSlots(slots), INFO_SIZE * i, INFO_SIZE * i + INFO_SIZE);
  }

  lemma DecodeFromIs(payload: seq<byte>, i: nat, count: nat)
    ensures var offset := LIST_HEADER + i * INFO_SIZE;
      DecodeFrom(payload, i, count)
      == if i >= count || offset + INFO_SIZE > |payload| then []
         else [DecodeInfo(payload[offset..offset + INFO_SIZE])] + DecodeFrom(payload, i + 1, count)
  {
    hide DecodeInfo;
  }

  lemma {:induction false} DecodeFromSlots(slots: seq<Slot>, message: seq<byte>, i: nat)
    requires |slots| <= MAX_FILES && AllValid(slots) && |message| == 64 && i <= |slots|
    ensures var d := DecodeFrom(EncodeList(slots, message), i, |slots|);
      |d| == |slots| - i && forall k | 0 <= k < |d| :: d[k] == DecodeInfo(EncodeSlot(slots[i + k]))
    decreases |slots| - i
  {
    hide EncodeSlot, DecodeInfo, EncodeList, DecodeFrom, AllValid;
    DecodeFromIs(EncodeList(slots, message), i, |slots|);
    if i < |slots| {
      RecordAt(slots, message, i);
      DecodeFromSlots(slots, message, i + 1);
    }
  }

  ghost function InfosOf(files: seq<(seq<byte>, Stat)>): (r: seq<FileInfo>)
    ensures |r| == |files|
    ensures forall i | 0 <= i < |files| :: r[i] == InfoOf(files[i].0, files[i].1)
  {
    seq(|files|, i requires 0 <= i < |files| => InfoOf(files[i].0, files[i].1))
  }

  lemma CountByte(slots: seq<Slot>, message: seq<byte>)
    requires |slots| <= MAX_FILES && AllValid(slots) && |message| == 64
    ensures DecodeList(EncodeList(slots, message)) == Some(DecodeFrom(EncodeList(slots, message), 0, |slots|))
  {
    hide EncodeSlots, DecodeFrom, ToByte, ByteValue;
    assert EncodeList(slots, message)[1] == ToByte(|slots|);
  }

  lemma DecodedSlots(slots: seq<Slot>, message: seq<byte>) returns (got: seq<FileInfo>)
    requires |slots| <= MAX_FILES && AllValid(slots) && |message| == 64
    ensures DecodeList(EncodeList(slots, message)) == Some(got)
    ensures |got| == |slots| && forall k | 0 <= k < |slots| :: got[k] == DecodeInfo(EncodeSlot(slots[k]))
  {
    CountByte(slots, message);
    DecodeFromSlots(slots, message, 0);
    hide *;
    got := DecodeFrom(EncodeList(slots, message), 0, |slots|);
    assert forall k | 0 <= k < |slots| :: slots[0 + k] == slots[k];
  }

  /** The payload alone: the files come back as they are exactly when each of them survives. */
  lemma ListRoundTrip(files: seq<(seq<byte>, Stat)>, slack: seq<Slack>, message: seq<byte>)
    requires |files| <= MAX_FILES <= |slack| && |message| == 64 && AllValid(Fill(files, slack))
    requires forall i | 0 <= i < |files| :: NulFree(files[i].0) && |files[i].0| <= 255
    ensures DecodeList(EncodeList(Fill(files, slack), message)) == Some(InfosOf(files))
      <==> forall i | 0 <= i < |files| :: Survives(Slot(files[i].0, files[i].1, slack[i]))
  {
    hide EncodeSlot, DecodeInfo, InfoOf, Survives, EncodeList, DecodeList, NulFree;
    var slots := Fill(files, slack);
    var got := DecodedSlots(slots, message);
    forall i | 0 <= i < |files|
      ensures got[i] == InfosOf(files)[i] <==> Survives(Slot(files[i].0, files[i].1, slack[i]))
    {
      assert ValidSlot(slots[i]);
      SlotRoundTrip(slots[i]);
    }
    assert got == InfosOf(files) <==> forall i | 0 <= i < |files| :: got[i] == InfosOf(files)[i];
  }

  /** What the client makes of the bytes that came back, with anything behind them: None when no frame came. */
  function ClientSees(sent: Option<seq<byte>>, rest: seq<byte>): Option<seq<FileInfo>> {
    if sent.None? then None
    else match ClientDecode(sent.value + rest)
      case None => None
      case Some(m) => DecodeList(m.payload)
  }

  /** A response frame arrives exactly when the payload is within the limit. */
  lemma ResponseArrives(cmd: bv16, seqNo: bv16, payload: seq<byte>, rest: seq<byte>)
    ensures Response(cmd, seqNo, payload).Some? <==> |payload| <= MAX_PAYLOAD_SIZE
    ensures ClientSees(Response(cmd, seqNo, payload), rest)
      == if |payload| <= MAX_PAYLOAD_SIZE then DecodeList(payload) else None
  {
    if |payload| <= MAX_PAYLOAD_SIZE { DecodersRecover(cmd, seqNo as bv32, payload, rest, None); }
    hide ClientDecode, ParseHeader, FrameBytes, HeaderFor, DecodeList;
  }

  /** All the files of the directory: those at increasing positions `at`, and no entry left out that is one. */
  ghost predicate AllFiles(entries: seq<DirEntry>, at: seq<nat>, all: seq<(seq<byte>, Stat)>) {
    Rising(at) && Tells(entries, at, all) && Complete(entries, at, false)
  }

  lemma AllListed(entries: seq<DirEntry>) returns (at: seq<nat>)
    ensures AllFiles(entries, at, Listed(entries, |entries|))
  {
    at := ListedPicks(entries, |entries| + 1);
    ListedPrefix(entries, |entries|, |entries| + 1);
    ListedBound(entries, |entries|);
    ListedBound(entries, |entries| + 1);
    hide Listed, Rising, Tells;
  }

  /**
   The way of a directory to the client: through the readdir loop, the response frame and both decoders. The client sees
   all its files as they are exactly when there are at most 59 and each of them survives; from 60 on nothing is sent.
   */
  lemma DirectoryArrives(entries: seq<DirEntry>, slack: seq<Slack>, message: seq<byte>, seqNo: bv16, rest: seq<byte>)
    returns (all: seq<(seq<byte>, Stat)>, at: seq<nat>)
    requires |slack| == MAX_FILES && |message| == 64
    requires forall i | 0 <= i < |slack| :: |slack[i].padding| == 3
    requires forall i | 0 <= i < |entries| :: NulFree(entries[i].name) && |entries[i].name| <= 255
    ensures AllFiles(entries, at, all)
    ensures |Listed(entries, MAX_FILES)| <= MAX_FILES
    ensures var sent := Response(0x0202, seqNo, EncodeList(Fill(Listed(entries, MAX_FILES), slack), message));
      && (sent.None? <==> |all| >= 60)
      && (ClientSees(sent, rest) == Some(InfosOf(all)) <==>
            |all| <= 59 && forall i | 0 <= i < |all| :: Survives(Slot(all[i].0, all[i].1, slack[i])))
  {
    at := AllListed(entries);
    all := Listed(entries, |entries|);
    var files := Listed(entries, MAX_FILES);
    FirstFiles(entries);
    ListedNames(entries, |entries|);
    hide Listed, EncodeList, Survives, NulFree, InfosOf, DecodeList, Response, ClientSees, AllFiles;
    var payload := EncodeList(Fill(files, slack), message);
    ResponseArrives(FILE_LIST_RESP, seqNo, payload, rest);
    if |all| <= 59 {
      ListRoundTrip(files, slack, message);
    }
  }

  /** Up to 255 files, the listing is all of them. */
  lemma FirstFiles(entries: seq<DirEntry>)
    ensures var all, files := Listed(entries, |entries|), Listed(entries, MAX_FILES);
      |files| == (if |all| <= MAX_FILES then |all| else MAX_FILES) && (|all| <= MAX_FILES ==> files == all)
  {
    ListedBound(entries, |entries|);
    ListedBound(entries, MAX_FILES);
    hide Listed;
    if |entries| <= MAX_FILES {
      ListedPrefix(entries, |entries|, MAX_FILES);
      ListedBound(entries, MAX_FILES);
    } else {
      ListedPrefix(entries, MAX_FILES, |entries|);
    }
  }

  /** Listed names are names of entries. */
  lemma {:induction false} ListedNames(entries: seq<DirEntry>, room: nat)
    requires forall i | 0 <= i < |entries| :: NulFree(entries[i].name) && |entries[i].name| <= 255
    ensures forall i | 0 <= i < |Listed(entries, room)| ::
      NulFree(Listed(entries, room)[i].0) && |Listed(entries, room)[i].0| <= 255
    decreases |entries|
  {
    hide IsDots, NulFree;
    if entries != [] && room > 0 {
      ListedNames(entries[1..], room);
      ListedNames(entries[1..], room - 1);
    }
  }
}
