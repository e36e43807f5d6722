/** NackGenerator: the list of missing packets of a receiving stream, as a value and the functions that the methods
    of class NackGenerator compute. */
module NackLists {
  import opened Seq16

  const MAX_PACKET_AGE: u16 := 5000
  const MAX_NACK_PACKETS := 1000
  const DEFAULT_RTT := 100
  const MAX_NACK_RETRIES := 8

  /** An entry of the NACK list; sentAtTime 0 means not sent yet. */
  datatype NackInfo = NackInfo(seqNum: u16, sendAtSeq: u16, sentAtTime: nat, retries: nat)

  /** The std::map of the source is a list in iteration order, which its comparator SeqLowerThan determines; so is
      the std::set of remembered key frames. */
  datatype Generator = Generator(
    started: bool,
    lastSeq: u16,
    nackList: seq<NackInfo>,
    keyFrameList: seq<u16>,
    rtt: nat,
    timerActive: bool)

  datatype Filter = BySeq | ByTime

  /** Why an entry left the list. */
  datatype Reason = Received | TooOld | BeforeKeyFrame | MaxRetries | Overflow | Resetting
  datatype Exit = Exit(seqNum: u16, reason: Reason)

  /** What one call does besides changing the state. `found` is ReceivePacket's result, `batch` what goes to the
      listener as one NACK (nothing when empty). */
  datatype Effect = Effect(
    found: bool,
    batch: seq<u16>,
    keyFrameRequired: bool,
    inserted: seq<u16>,
    exits: seq<Exit>)

  const NOTHING := Effect(false, [], false, [], [])

  function Initial(): Generator
  {
    Generator(false, 0, [], [], DEFAULT_RTT, false)
  }

  // ----- The ordered containers

  function Keys(list: seq<NackInfo>): (r: seq<u16>)
    ensures |r| == |list|
  {
    seq(|list|, i requires 0 <= i < |list| => list[i].seqNum)
  }

  /** `find(key)`: a position, or the length when there is none. */
  function Find(list: seq<NackInfo>, key: u16): (r: nat)
    ensures r <= |list|
    ensures forall i :: 0 <= i < r ==> list[i].seqNum != key
    ensures r < |list| ==> list[r].seqNum == key
  {
    if list == [] || list[0].seqNum == key then 0 else 1 + Find(list[1..], key)
  }

  /** `emplace` of a key that is not present. */
  function Emplace(list: seq<NackInfo>, info: NackInfo): seq<NackInfo>
  {
    var k := LowerBound(Keys(list), info.seqNum);
    list[..k] + [info] + list[k..]
  }

  function ExitsFor(list: seq<NackInfo>, reason: Reason): (r: seq<Exit>)
    ensures |r| == |list|
  {
    seq(|list|, i requires 0 <= i < |list| => Exit(list[i].seqNum, reason))
  }

  // ----- GetNackBatch

  /** Whether the filter picks an entry. */
  predicate Picks(filter: Filter, info: NackInfo, lastSeq: u16, rtt: nat, now: nat)
  {
    match filter
    case BySeq => info.sentAtTime == 0 && Higher(lastSeq, info.sendAtSeq)
    case ByTime => info.sentAtTime + rtt < now
  }

  function Sent(info: NackInfo, now: nat): NackInfo
  {
    info.(retries := info.retries + 1, sentAtTime := now)
  }

  /** The entries that stay, the batch, and the entries dropped at their last retry. */
  function GetNackBatch(list: seq<NackInfo>, filter: Filter, lastSeq: u16, rtt: nat, now: nat)
    : (r: (seq<NackInfo>, seq<u16>, seq<Exit>))
    ensures |r.0| + |r.2| == |list|
  {
    if list == [] then ([], [], [])
    else
      var info := list[0];
      var (rest, batch, exits) := GetNackBatch(list[1..], filter, lastSeq, rtt, now);
      if !Picks(filter, info, lastSeq, rtt, now) then ([info] + rest, batch, exits)
      else if info.retries + 1 >= MAX_NACK_RETRIES then (rest, batch, [Exit(info.seqNum, MaxRetries)] + exits)
      else ([Sent(info, now)] + rest, [info.seqNum] + batch, exits)
  }

  // ----- ReceivePacket

  /** RemoveNackItemsUntilKeyFrame and the insertion of the new key frame: what stays of the two lists, and how many
      entries go. */
  function RememberKeyFrame(list: seq<NackInfo>, keyFrames: seq<u16>, seqNum: u16)
    : (r: (seq<NackInfo>, seq<u16>, nat))
    ensures r.2 <= |list| && r.0 == list[r.2..]
  {
    var gone := if keyFrames == [] then 0 else LowerBound(Keys(list), keyFrames[0]);
    (list[gone..], InsertKey(if keyFrames == [] then [] else keyFrames[1..], seqNum), gone)
  }

  /** The loop of AddPacketsToNackList. */
  function AddPackets(list: seq<NackInfo>, seqStart: u16, seqEnd: u16): seq<NackInfo>
    decreases Ahead(seqEnd, seqStart)
  {
    if seqStart == seqEnd then list
    else AddPackets(Emplace(list, NackInfo(seqStart, seqStart, 0, 0)), Next(seqStart), seqEnd)
  }

  /** The numbers from `from` up to, not including, `end`. */
  function Range(from: u16, end: u16): (r: seq<u16>)
    decreases Ahead(end, from)
  {
    if from == end then [] else [from] + Range(Next(from), end)
  }

  function Reset(g: Generator): Generator
  {
    Generator(false, 0, [], [], 0, false)
  }

  datatype Pruned = Pruned(nackList: seq<NackInfo>, keyFrameList: seq<u16>, exits: seq<Exit>)

  /** CleanOldNackItems, and the key frame handling that follows it. */
  function Prune(g: Generator, seqNum: u16, isKeyFrame: bool): Pruned
  {
    var oldest := Ahead(seqNum, MAX_PACKET_AGE);
    var tooOld := LowerBound(Keys(g.nackList), oldest);
    var young := g.nackList[tooOld..];
    var keyFrames := g.keyFrameList[LowerBound(g.keyFrameList, oldest)..];
    var cleaned := ExitsFor(g.nackList[..tooOld], TooOld);
    if isKeyFrame then
      var (list, keyFrames', gone) := RememberKeyFrame(young, keyFrames, seqNum);
      Pruned(list, keyFrames', cleaned + ExitsFor(young[..gone], BeforeKeyFrame))
    else Pruned(young, keyFrames, cleaned)
  }

  /** ReceivePacket for a packet newer than any before. */
  function ReceiveNewer(g: Generator, seqNum: u16, isKeyFrame: bool, now: nat, resets: bool): (Generator, Effect)
  {
    var pruned := Prune(g, seqNum, isKeyFrame);
    // The comparison is made on int: past 65535 it never holds.
    if seqNum as int == g.lastSeq + 1 then
      (g.(lastSeq := seqNum, nackList := pruned.nackList, keyFrameList := pruned.keyFrameList),
       NOTHING.(exits := pruned.exits))
    else if |pruned.nackList| + Ahead(seqNum, Next(g.lastSeq)) > MAX_NACK_PACKETS then
      var effect := NOTHING.(keyFrameRequired := true, exits := pruned.exits + ExitsFor(pruned.nackList, Overflow));
      // The listener may reset the generator while it handles the key frame request.
      if resets then (Reset(g), effect) else (g.(lastSeq := seqNum, nackList := [], keyFrameList := []), effect)
    else
      var added := AddPackets(pruned.nackList, Next(g.lastSeq), seqNum);
      var (left, batch, dropped) := GetNackBatch(added, BySeq, seqNum, g.rtt, now);
      (g.(lastSeq := seqNum, nackList := left, keyFrameList := pruned.keyFrameList,
          timerActive := g.timerActive || left != []),
       NOTHING.(batch := batch, inserted := Range(Next(g.lastSeq), seqNum), exits := pruned.exits + dropped))
  }

  function ReceivePacket(g: Generator, seqNum: u16, isKeyFrame: bool, now: nat, resets: bool): (Generator, Effect)
  {
    if !g.started then
      (g.(started := true, lastSeq := seqNum,
          keyFrameList := if isKeyFrame then InsertKey(g.keyFrameList, seqNum) else g.keyFrameList), NOTHING)
    else if seqNum == g.lastSeq then (g, NOTHING)
    else if Lower(seqNum, g.lastSeq) then
      var k := Find(g.nackList, seqNum);
      if k < |g.nackList| then
        (g.(nackList := g.nackList[..k] + g.nackList[k + 1..]),
         NOTHING.(found := true, exits := [Exit(seqNum, Received)]))
      else (g, NOTHING)
    else ReceiveNewer(g, seqNum, isKeyFrame, now, resets)
  }

  // ----- OnTimer

  function OnTimer(g: Generator, now: nat): (Generator, Effect)
  {
    var (left, batch, dropped) := GetNackBatch(g.nackList, ByTime, g.lastSeq, g.rtt, now);
    (g.(nackList := left, timerActive := left != []), NOTHING.(batch := batch, exits := dropped))
  }
}
