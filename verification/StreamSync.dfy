/**
 * The sending side of audio/video synchronisation: the list of open streams decides when a group is
 * started and when the source's shared memory is closed.  Runs are serialised: one operation ends
 * before the next begins.
 */
module StreamSync {
  import opened Common
  import opened Subsequences

  const SCENE_TYPE_D_MIC := "dmic_stream"
  const SCENE_TYPE_D_SCREEN := "dscreen_stream"
  const SCENE_TYPE_D_SPEAKER := "dspeaker_stream"
  const SCENE_TYPE_D_CAMERA_STR := "dcamera_stream"
  const SCENE_TYPE_D_CAMERA_PIC := "dcamera_picture"
  const AV_SYNC_STREAM_COUNT := 2
  const CLOCK_UNIT_SIZE := 12

  datatype Stream = Stream(sceneType: string, peerDevId: string)

  datatype AvSyncFlag = MASTER | SLAVE

  /** One element of the printed group. */
  datatype Entry = Entry(sceneType: string, peerDevId: string, startFrameNum: nat, avSyncFlag: AvSyncFlag)

  datatype Memory = Memory(fd: int, size: int, name: string, mapped: bool)

  datatype Message =
    | StartAvSync(group: set<Entry>, peerDevId: string)
    | StopAvSync(peerDevId: string)

  /**
   * Answers of the platform: the positions of the list at which an element cannot be created or
   * printed, whether the array can be, and the descriptor that a new shared memory gets.
   */
  datatype Answers = Answers(failing: set<nat>, arrayFails: bool, fd: int)

  // ----- Which lists are merged, and into what -----

  predicate IsAudio(scene: string) {
    scene == SCENE_TYPE_D_MIC || scene == SCENE_TYPE_D_SPEAKER
  }

  predicate IsVideo(scene: string) {
    scene == SCENE_TYPE_D_SCREEN || scene == SCENE_TYPE_D_CAMERA_STR
  }

  function Scenes(list: seq<Stream>): set<string> {
    set s | s in list :: s.sceneType
  }

  /** The condition as the source promises it; its count of scenes is not part of it. */
  predicate Mergeable(list: seq<Stream>) {
    var mic, speaker := SCENE_TYPE_D_MIC in Scenes(list), SCENE_TYPE_D_SPEAKER in Scenes(list);
    || (speaker && !mic && SCENE_TYPE_D_SCREEN in Scenes(list))
    || (mic && !speaker && SCENE_TYPE_D_CAMERA_STR in Scenes(list))
  }

  function EntryOf(s: Stream): Entry {
    Entry(s.sceneType, s.peerDevId, 0, if IsAudio(s.sceneType) then MASTER else SLAVE)
  }

  function Group(list: seq<Stream>): set<Entry> {
    set s | s in list && (IsAudio(s.sceneType) || IsVideo(s.sceneType)) :: EntryOf(s)
  }

  predicate PrintsAll(list: seq<Stream>, answers: Answers) {
    forall i | 0 <= i < |list| && (IsAudio(list[i].sceneType) || IsVideo(list[i].sceneType)) :: i !in answers.failing
  }

  function Merged(list: seq<Stream>, answers: Answers): Option<set<Entry>> {
    if Mergeable(list) && PrintsAll(list, answers) && !answers.arrayFails then Some(Group(list)) else None
  }

  /** Two scenes that go together make two scenes, so the count never decides. */
  lemma TwoScenes(list: seq<Stream>)
    requires Mergeable(list)
    ensures |Scenes(list)| >= AV_SYNC_STREAM_COUNT
  {
    var audio := if SCENE_TYPE_D_MIC in Scenes(list) then SCENE_TYPE_D_MIC else SCENE_TYPE_D_SPEAKER;
    var video := if SCENE_TYPE_D_MIC in Scenes(list) then SCENE_TYPE_D_CAMERA_STR else SCENE_TYPE_D_SCREEN;
    ScenesDiffer();
    assert IsAudio(audio) && IsVideo(video);
    assert Scenes(list) == {audio, video} + (Scenes(list) - {audio, video});
  }

  /** What a merged group always has, and what it says of each stream. */
  ghost predicate SoundGroup(group: set<Entry>) {
    && (exists e | e in group :: e.avSyncFlag == MASTER)
    && (exists e | e in group :: e.avSyncFlag == SLAVE)
    && (forall e | e in group :: e.startFrameNum == 0)
    && (forall e | e in group :: if e.avSyncFlag == MASTER then IsAudio(e.sceneType) else IsVideo(e.sceneType))
    && (forall e, e' | e in group && e' in group && e.avSyncFlag == MASTER && e'.avSyncFlag == MASTER ::
          e.sceneType == e'.sceneType)
  }

  /** A merged group has an audio master and a video slave, and all its masters are of one scene. */
  lemma MergedGroupIsSound(list: seq<Stream>, answers: Answers)
    requires Merged(list, answers).Some?
    ensures SoundGroup(Merged(list, answers).value)
  {
    var audio := if SCENE_TYPE_D_MIC in Scenes(list) then SCENE_TYPE_D_MIC else SCENE_TYPE_D_SPEAKER;
    var video := if SCENE_TYPE_D_MIC in Scenes(list) then SCENE_TYPE_D_CAMERA_STR else SCENE_TYPE_D_SCREEN;
    var a :| a in list && a.sceneType == audio;
    var v :| v in list && v.sceneType == video;
    assert IsAudio(audio) && IsVideo(video);
    assert EntryOf(a) in Group(list) && EntryOf(v) in Group(list);
    ScenesDiffer();
    forall e | e in Group(list) && e.avSyncFlag == MASTER ensures e.sceneType == audio {
      assert e.sceneType in Scenes(list);
    }
  }

  lemma ScenesDiffer()
    ensures forall scene :: !(IsAudio(scene) && IsVideo(scene))
  {
    assert |SCENE_TYPE_D_MIC| == 11 && |SCENE_TYPE_D_SCREEN| == |SCENE_TYPE_D_CAMERA_STR| == 14;
    assert |SCENE_TYPE_D_SPEAKER| == 15;
  }

  /** Order and duplicates of the list do not matter. */
  lemma MergeDependsOnPairsOnly(list: seq<Stream>, list': seq<Stream>, answers: Answers, answers': Answers)
    requires forall s :: s in list <==> s in list'
    requires PrintsAll(list, answers) && PrintsAll(list', answers') && answers.arrayFails == answers'.arrayFails
    ensures Merged(list, answers) == Merged(list', answers')
  {
    assert Scenes(list) == Scenes(list');
    assert Group(list) == Group(list');
  }

  /**
   * A list merges exactly if it holds one of the two pairs of scenes and not both audio scenes, every audio
   * and video stream of it can be printed, and so can the whole.
   */
  lemma MergesExactly(list: seq<Stream>, answers: Answers)
    ensures Merged(list, answers).Some? <==>
      && !answers.arrayFails
      && (forall i | 0 <= i < |list| && i in answers.failing ::
            list[i].sceneType !in {"dmic_stream", "dspeaker_stream", "dscreen_stream", "dcamera_stream"})
      && (|| ((exists x <- list :: x.sceneType == "dspeaker_stream")
              && (exists x <- list :: x.sceneType == "dscreen_stream")
              && forall x <- list :: x.sceneType != "dmic_stream")
          || ((exists x <- list :: x.sceneType == "dmic_stream")
              && (exists x <- list :: x.sceneType == "dcamera_stream")
              && forall x <- list :: x.sceneType != "dspeaker_stream"))
  {
    MergeableExactly(list);
    PrintsExactly(list, answers);
  }

  lemma MergeableExactly(list: seq<Stream>)
    ensures Mergeable(list) <==>
      || ((exists x <- list :: x.sceneType == "dspeaker_stream")
          && (exists x <- list :: x.sceneType == "dscreen_stream")
          && forall x <- list :: x.sceneType != "dmic_stream")
      || ((exists x <- list :: x.sceneType == "dmic_stream")
          && (exists x <- list :: x.sceneType == "dcamera_stream")
          && forall x <- list :: x.sceneType != "dspeaker_stream")
  {
    assert forall scene :: scene in Scenes(list) <==> exists x :: x in list && x.sceneType == scene;
  }

  lemma PrintsExactly(list: seq<Stream>, answers: Answers)
    ensures PrintsAll(list, answers) <==>
      forall i | 0 <= i < |list| && i in answers.failing ::
        list[i].sceneType !in {"dmic_stream", "dspeaker_stream", "dscreen_stream", "dcamera_stream"}
  {
  }

  /** The group has one entry for each listed audio and video stream, with its own peer, and no other. */
  lemma GroupExactly(list: seq<Stream>, scene: string, peer: string, startFrameNum: nat, flag: AvSyncFlag)
    ensures Entry(scene, peer, startFrameNum, flag) in Group(list) <==>
      && Stream(scene, peer) in list
      && startFrameNum == 0
      && if flag == MASTER then scene == "dmic_stream" || scene == "dspeaker_stream"
         else scene == "dscreen_stream" || scene == "dcamera_stream"
  {
    ScenesDiffer();
    var entry := Entry(scene, peer, startFrameNum, flag);
    if entry in Group(list) {
      var s :| s in list && (IsAudio(s.sceneType) || IsVideo(s.sceneType)) && EntryOf(s) == entry;
      assert s == Stream(scene, peer);
    }
    if Stream(scene, peer) in list && (IsAudio(scene) || IsVideo(scene)) {
      assert EntryOf(Stream(scene, peer)) in Group(list);
    }
  }

  // ----- Adding and removing streams -----

  datatype Sync = Sync(list: seq<Stream>, sourceMemory: Memory, sent: seq<Message>)

  const START := Sync([], Memory(0, 0, "", false), [])

  predicate IsOpen(m: Memory) {
    !(m.fd <= 0 || m.size <= 0 || m.name == "" || !m.mapped)
  }

  function Created(name: string, size: int, fd: int): Memory {
    if fd <= 0 then Memory(0, 0, name, false) else Memory(fd, size, name, true)
  }

  function Shut(m: Memory): Memory {
    if IsOpen(m) then m.(fd := -1, mapped := false) else m
  }

  function StartMessages(list: seq<Stream>, group: set<Entry>): seq<Message> {
    seq(|list|, i requires 0 <= i < |list| => StartAvSync(group, list[i].peerDevId))
  }

  function StopMessages(list: seq<Stream>): seq<Message> {
    seq(|list|, i requires 0 <= i < |list| => StopAvSync(list[i].peerDevId))
  }

  function Without(list: seq<Stream>, x: Stream): seq<Stream> {
    if list == [] then []
    else Without(list[..|list| - 1], x) + if list[|list| - 1] == x then [] else [list[|list| - 1]]
  }

  lemma {:induction false} WithoutMembers(list: seq<Stream>, x: Stream)
    ensures forall s :: s in Without(list, x) <==> s in list && s != x
  {
    if list != [] {
      WithoutMembers(list[..|list| - 1], x);
      assert list == list[..|list| - 1] + [list[|list| - 1]];
    }
  }

  /** The state of the erasing loop that has passed over the first `done` elements of `was`. */
  predicate Erased(was: seq<Stream>, done: nat, x: Stream, list: seq<Stream>, i: int) {
    && done <= |was|
    && i == |Without(was[..done], x)|
    && list == Without(was[..done], x) + was[done..]
  }

  lemma ErasesOneMore(was: seq<Stream>, done: nat, x: Stream, list: seq<Stream>, i: int)
    requires Erased(was, done, x, list, i) && i < |list|
    ensures done < |was| && 0 <= i
    ensures list[i] == x ==> Erased(was, done + 1, x, list[..i] + list[i + 1..], i)
    ensures list[i] != x ==> Erased(was, done + 1, x, list, i + 1)
  {
    var front := Without(was[..done], x);
    assert was[..done + 1][..done] == was[..done];
    assert was[done..] == [was[done]] + was[done + 1..];
    assert list[..i] == front && list[i + 1..] == was[done + 1..];
    assert front + ([was[done]] + was[done + 1..]) == front + [was[done]] + was[done + 1..];
  }

  lemma AllErased(was: seq<Stream>, done: nat, x: Stream, list: seq<Stream>, i: int)
    requires Erased(was, done, x, list, i) && i >= |list|
    ensures list == Without(was, x)
  {
    assert done == |was| && was[..done] == was;
  }

  /** `EnableSenderAVSync`. */
  function Enabled(s: Sync, answers: Answers): Sync {
    match Merged(s.list, answers)
    case None => s
    case Some(group) =>
      Sync(s.list, Created("sourceSharedMemory", CLOCK_UNIT_SIZE, answers.fd), s.sent + StartMessages(s.list, group))
  }

  /** `DisableSenderAVSync`. */
  function Disabled(s: Sync): Sync {
    if |s.list| >= AV_SYNC_STREAM_COUNT then s
    else Sync(s.list, Shut(s.sourceMemory), s.sent + StopMessages(s.list))
  }

  function Added(s: Sync, x: Stream, answers: Answers): Sync {
    var s' := s.(list := s.list + [x]);
    if |s'.list| < AV_SYNC_STREAM_COUNT then s' else Enabled(s', answers)
  }

  function Removed(s: Sync, x: Stream): Sync {
    Disabled(s.(list := Without(s.list, x)))
  }

  // ----- The manager -----

  class AVSyncManager {
    var streamInfoList: seq<Stream>
    var sourceMemory: Memory
    /** The messages handed to the control center, in order. */
    var sent: seq<Message>

    function State(): Sync
      reads this
    {
      Sync(streamInfoList, sourceMemory, sent)
    }

    constructor ()
      ensures State() == START
    {
      streamInfoList, sourceMemory, sent := [], Memory(0, 0, "", false), [];
    }

    method AddStreamInfo(stream: Stream, answers: Answers)
      modifies this
      ensures State() == Added(old(State()), stream, answers)
    {
      streamInfoList := streamInfoList + [stream];
      if |streamInfoList| < AV_SYNC_STREAM_COUNT {
        return;
      }
      EnableSenderAVSync(answers);
    }

    method RemoveStreamInfo(stream: Stream)
      modifies this
      ensures State() == Removed(old(State()), stream)
    {
      ghost var was := streamInfoList;
      ghost var done := 0;
      var i := 0;
      while i < |streamInfoList|
        invariant Erased(was, done, stream, streamInfoList, i)
        invariant sourceMemory == old(sourceMemory) && sent == old(sent)
        decreases |was| - done
      {
        ErasesOneMore(was, done, stream, streamInfoList, i);
        if streamInfoList[i].sceneType == stream.sceneType && streamInfoList[i].peerDevId == stream.peerDevId {
          streamInfoList := streamInfoList[..i] + streamInfoList[i + 1..];
        } else {
          i := i + 1;
        }
        done := done + 1;
      }
      AllErased(was, done, stream, streamInfoList, i);
      DisableSenderAVSync();
    }

    method EnableSenderAVSync(answers: Answers)
      modifies this
      ensures State() == Enabled(old(State()), answers)
    {
      var group := MergeGroupInfo(answers);
      if group.None? {
        return;
      }
      var i := 0;
      while i < |streamInfoList|
        invariant i <= |streamInfoList| && streamInfoList == old(streamInfoList)
        invariant sent == old(sent) + StartMessages(streamInfoList[..i], group.value)
      {
        sent := sent + [StartAvSync(group.value, streamInfoList[i].peerDevId)];
        i := i + 1;
      }
      assert streamInfoList[..i] == streamInfoList;
      sourceMemory := Created("sourceSharedMemory", CLOCK_UNIT_SIZE, answers.fd);
    }

    method DisableSenderAVSync()
      modifies this
      ensures State() == Disabled(old(State()))
    {
      if |streamInfoList| >= AV_SYNC_STREAM_COUNT {
        return;
      }
      var i := 0;
      while i < |streamInfoList|
        invariant i <= |streamInfoList| && streamInfoList == old(streamInfoList)
        invariant sourceMemory == old(sourceMemory)
        invariant sent == old(sent) + StopMessages(streamInfoList[..i])
      {
        sent := sent + [StopAvSync(streamInfoList[i].peerDevId)];
        i := i + 1;
      }
      assert streamInfoList[..i] == streamInfoList;
      sourceMemory := Shut(sourceMemory);
    }

    /** The branches of the source decide exactly the promised condition. */
    method MergeGroupInfo(answers: Answers) returns (group: Option<set<Entry>>)
      ensures group == Merged(streamInfoList, answers)
    {
      var scenes: set<string> := {};
      var i := 0;
      while i < |streamInfoList|
        invariant i <= |streamInfoList| && scenes == Scenes(streamInfoList[..i])
      {
        assert streamInfoList[..i + 1] == streamInfoList[..i] + [streamInfoList[i]];
        scenes := scenes + {streamInfoList[i].sceneType};
        i := i + 1;
      }
      assert streamInfoList[..i] == streamInfoList;
      if |scenes| < AV_SYNC_STREAM_COUNT {
        if Mergeable(streamInfoList) { TwoScenes(streamInfoList); }
        return None;
      }
      if SCENE_TYPE_D_MIC in scenes && SCENE_TYPE_D_SPEAKER in scenes {
        return None;
      }
      var source2Sink := SCENE_TYPE_D_SCREEN in scenes && SCENE_TYPE_D_SPEAKER in scenes;
      var sink2Source := SCENE_TYPE_D_CAMERA_STR in scenes && SCENE_TYPE_D_MIC in scenes;
      if !source2Sink && !sink2Source {
        return None;
      }
      var entries := MergeGroupInfoInner(answers);
      if entries.None? || answers.arrayFails {
        return None;
      }
      return entries;
    }

    method MergeGroupInfoInner(answers: Answers) returns (entries: Option<set<Entry>>)
      ensures entries.Some? <==> PrintsAll(streamInfoList, answers)
      ensures entries.Some? ==> entries.value == Group(streamInfoList)
    {
      var groupInfoSet: set<Entry> := {};
      var i := 0;
      while i < |streamInfoList|
        invariant i <= |streamInfoList|
        invariant groupInfoSet == Group(streamInfoList[..i])
        invariant PrintsAll(streamInfoList[..i], answers)
      {
        var item := streamInfoList[i];
        assert streamInfoList[..i + 1] == streamInfoList[..i] + [item];
        if item.sceneType == SCENE_TYPE_D_MIC || item.sceneType == SCENE_TYPE_D_SPEAKER {
          if i in answers.failing {
            return None;
          }
          groupInfoSet := groupInfoSet + {Entry(item.sceneType, item.peerDevId, 0, MASTER)};
        } else if item.sceneType == SCENE_TYPE_D_SCREEN || item.sceneType == SCENE_TYPE_D_CAMERA_STR {
          if i in answers.failing {
            return None;
          }
          groupInfoSet := groupInfoSet + {Entry(item.sceneType, item.peerDevId, 0, SLAVE)};
        }
        i := i + 1;
      }
      assert streamInfoList[..i] == streamInfoList;
      return Some(groupInfoSet);
    }
  }

  // ----- Runs -----

  datatype Event =
    | Add(stream: Stream, answers: Answers)
    | Remove(stream: Stream)

  function Step(s: Sync, e: Event): Sync {
    match e
    case Add(x, answers) => Added(s, x, answers)
    case Remove(x) => Removed(s, x)
  }

  function After(es: seq<Event>): Sync {
    if es == [] then START else Step(After(es[..|es| - 1]), es[|es| - 1])
  }

  ghost predicate Inv(s: Sync) {
    && (IsOpen(s.sourceMemory) ==> |s.list| >= AV_SYNC_STREAM_COUNT)
    && forall m | m in s.sent && m.StartAvSync? :: SoundGroup(m.group)
  }

  /** In every run an open memory means two streams, and every group that was ever started is sound. */
  lemma {:induction false} RunsKeepInvariant(es: seq<Event>)
    ensures Inv(After(es))
  {
    if es != [] {
      var s, e := After(es[..|es| - 1]), es[|es| - 1];
      RunsKeepInvariant(es[..|es| - 1]);
      if e.Add? && Merged(s.list + [e.stream], e.answers).Some? {
        MergedGroupIsSound(s.list + [e.stream], e.answers);
      }
    }
  }

  /** A stream is listed as often as it was added since it was last removed. */
  function Count(list: seq<Stream>, x: Stream): nat {
    multiset(list)[x]
  }

  function AddedSince(es: seq<Event>, x: Stream): nat {
    if es == [] then 0
    else match es[|es| - 1]
      case Remove(y) => if y == x then 0 else AddedSince(es[..|es| - 1], x)
      case Add(y, _) => AddedSince(es[..|es| - 1], x) + if y == x then 1 else 0
  }

  lemma {:induction false} WithoutCounts(list: seq<Stream>, x: Stream, y: Stream)
    ensures Count(Without(list, x), y) == if x == y then 0 else Count(list, y)
  {
    if list != [] {
      WithoutCounts(list[..|list| - 1], x, y);
      assert list == list[..|list| - 1] + [list[|list| - 1]];
    }
  }

  lemma {:induction false} ListedIsAddedSince(es: seq<Event>, x: Stream)
    ensures Count(After(es).list, x) == AddedSince(es, x)
  {
    if es != [] {
      ListedIsAddedSince(es[..|es| - 1], x);
      if es[|es| - 1].Remove? {
        WithoutCounts(After(es[..|es| - 1]).list, es[|es| - 1].stream, x);
      }
    }
  }

  /** Two runs with the same streams still added merge into the same group, in whatever order. */
  lemma {:induction false} MergeDependsOnStreamsStillAdded(es: seq<Event>, es': seq<Event>, answers: Answers)
    requires forall x :: AddedSince(es, x) > 0 <==> AddedSince(es', x) > 0
    requires answers.failing == {}
    ensures Merged(After(es).list, answers) == Merged(After(es').list, answers)
  {
    forall x ensures x in After(es).list <==> x in After(es').list {
      ListedIsAddedSince(es, x);
      ListedIsAddedSince(es', x);
    }
    MergeDependsOnPairsOnly(After(es).list, After(es').list, answers, answers);
  }

  // ----- Exactly when the memory is open -----

  /** The k-th event is an addition that merges, so that the memory is created anew. */
  predicate Merges(es: seq<Event>, k: nat) {
    k < |es| && es[k].Add? && Merged(After(es[..k]).list + [es[k].stream], es[k].answers).Some?
  }

  /** Two or more streams are listed after each event from the k-th on. */
  predicate StaysTwo(es: seq<Event>, k: nat) {
    forall j: nat | k < j <= |es| :: |After(es[..j]).list| >= AV_SYNC_STREAM_COUNT
  }

  /** The k-th event created the memory that is open after the run. */
  predicate OpenedAt(es: seq<Event>, k: nat) {
    && Merges(es, k)
    && es[k].answers.fd > 0
    && (forall j: nat | k < j < |es| :: !Merges(es, j))
    && StaysTwo(es, k)
  }

  lemma MergingMeansTwo(list: seq<Stream>, answers: Answers)
    requires Merged(list, answers).Some?
    ensures |list| >= AV_SYNC_STREAM_COUNT
  {
    TwoScenes(list);
    ScenesAreFewer(list);
  }

  lemma {:induction false} ScenesAreFewer(list: seq<Stream>)
    ensures |Scenes(list)| <= |list|
  {
    if list != [] {
      var before, last := list[..|list| - 1], list[|list| - 1];
      ScenesAreFewer(before);
      assert list == before + [last];
      assert Scenes(list) == Scenes(before) + {last.sceneType};
    }
  }

  lemma OpenAfterStep(s: Sync, e: Event)
    requires e.Add? ==> |s.list| + 1 >= AV_SYNC_STREAM_COUNT || !IsOpen(s.sourceMemory)
    ensures IsOpen(Step(s, e).sourceMemory) <==>
      if e.Add? && Merged(s.list + [e.stream], e.answers).Some? then e.answers.fd > 0
      else IsOpen(s.sourceMemory) && |Step(s, e).list| >= AV_SYNC_STREAM_COUNT
  {
    if e.Add? && Merged(s.list + [e.stream], e.answers).Some? {
      MergingMeansTwo(s.list + [e.stream], e.answers);
    }
  }

  lemma MergesGrows(es: seq<Event>, e: Event, k: nat)
    requires k < |es|
    ensures Merges(es + [e], k) <==> Merges(es, k)
  {
    assert (es + [e])[..k] == es[..k];
  }

  lemma StaysTwoGrows(es: seq<Event>, e: Event, k: nat)
    requires k <= |es|
    ensures StaysTwo(es + [e], k) <==> StaysTwo(es, k) && |After(es + [e]).list| >= AV_SYNC_STREAM_COUNT
  {
    var longer := es + [e];
    assert longer[..|longer|] == longer;
    forall j: nat | j <= |es| ensures longer[..j] == es[..j] {}
    if StaysTwo(longer, k) {
      assert |After(longer[..|longer|]).list| >= AV_SYNC_STREAM_COUNT;
      forall j: nat | k < j <= |es| ensures |After(es[..j]).list| >= AV_SYNC_STREAM_COUNT {
        assert longer[..j] == es[..j];
      }
    }
  }

  lemma OpenedAtGrows(es: seq<Event>, e: Event, k: nat)
    requires k < |es|
    ensures OpenedAt(es + [e], k) <==>
      OpenedAt(es, k) && !Merges(es + [e], |es|) && |After(es + [e]).list| >= AV_SYNC_STREAM_COUNT
  {
    forall j: nat | j < |es| ensures Merges(es + [e], j) <==> Merges(es, j) {
      MergesGrows(es, e, j);
    }
    StaysTwoGrows(es, e, k);
  }

  lemma OpenedByLast(es: seq<Event>, e: Event)
    requires Merges(es + [e], |es|)
    ensures (exists k: nat :: OpenedAt(es + [e], k)) <==> e.answers.fd > 0
  {
    var longer := es + [e];
    assert longer[..|es|] == es && longer[..|longer|] == longer;
    MergingMeansTwo(After(es).list + [e.stream], e.answers);
    assert OpenedAt(longer, |es|) <==> e.answers.fd > 0;
    if k: nat :| OpenedAt(longer, k) {
      assert k >= |es| && Merges(longer, k);
    }
  }

  lemma OpenedEarlier(es: seq<Event>, e: Event)
    requires !Merges(es + [e], |es|)
    ensures (exists k: nat :: OpenedAt(es + [e], k)) <==>
      (exists k: nat :: OpenedAt(es, k)) && |After(es + [e]).list| >= AV_SYNC_STREAM_COUNT
  {
    if k: nat :| OpenedAt(es + [e], k) {
      assert Merges(es + [e], k);
      OpenedAtGrows(es, e, k);
    }
    if k: nat :| OpenedAt(es, k) {
      assert Merges(es, k);
      OpenedAtGrows(es, e, k);
    }
  }

  /**
   * After a run the memory is open exactly if the last addition that merged got a memory, and at least two
   * streams have been listed ever since.
   */
  lemma {:induction false} OpenExactlyWhen(es: seq<Event>)
    ensures IsOpen(After(es).sourceMemory) <==> exists k: nat :: OpenedAt(es, k)
  {
    if es != [] {
      var before, e := es[..|es| - 1], es[|es| - 1];
      assert es == before + [e];
      OpenExactlyWhen(before);
      RunsKeepInvariant(before);
      OpenAfterStep(After(before), e);
      if Merges(es, |before|) {
        OpenedByLast(before, e);
      } else {
        OpenedEarlier(before, e);
      }
    }
  }

  // ----- The memory may stay open although the listed streams no longer make a group -----

  /** The audio scene of a list that merges, and the video scene that it goes with. */
  function AudioOf(list: seq<Stream>): string {
    if SCENE_TYPE_D_MIC in Scenes(list) then SCENE_TYPE_D_MIC else SCENE_TYPE_D_SPEAKER
  }

  function PartnerOf(audio: string): string {
    if audio == SCENE_TYPE_D_MIC then SCENE_TYPE_D_CAMERA_STR else SCENE_TYPE_D_SCREEN
  }

  predicate IsStale(s: Sync) {
    IsOpen(s.sourceMemory) && !Mergeable(s.list)
  }

  /** Adding a stream makes an open memory stale exactly if the stream is of the other audio scene. */
  lemma AddGoesStaleExactly(s: Sync, y: Stream, answers: Answers)
    requires IsOpen(s.sourceMemory) && Mergeable(s.list)
    ensures IsStale(Added(s, y, answers)) <==> IsAudio(y.sceneType) && y.sceneType != AudioOf(s.list)
  {
    var list := s.list + [y];
    ScenesDiffer();
    assert Scenes(list) == Scenes(s.list) + {y.sceneType};
    assert s.list != [];
  }

  /** The stream is the only one of its scene, repetitions aside, and the group needs that scene. */
  predicate IsNeeded(list: seq<Stream>, x: Stream) {
    && x.sceneType in {AudioOf(list), PartnerOf(AudioOf(list))}
    && forall y | y in list && y.sceneType == x.sceneType :: y == x
  }

  /**
   * Removing a stream does so exactly if it is the only one of a scene that the group needs, and two
   * others are left.
   */
  lemma RemoveGoesStaleExactly(s: Sync, x: Stream)
    requires IsOpen(s.sourceMemory) && Mergeable(s.list)
    ensures IsStale(Removed(s, x)) <==>
      IsNeeded(s.list, x) && |s.list| - Count(s.list, x) >= AV_SYNC_STREAM_COUNT
  {
    var list := Without(s.list, x);
    WithoutMembers(s.list, x);
    WithoutLength(s.list, x);
    StillMergesExactly(s.list, list, x);
  }

  lemma {:induction false} WithoutLength(list: seq<Stream>, x: Stream)
    ensures |Without(list, x)| == |list| - Count(list, x)
  {
    if list != [] {
      WithoutLength(list[..|list| - 1], x);
      assert list == list[..|list| - 1] + [list[|list| - 1]];
    }
  }

  /** So the memory goes stale at a step exactly as the step's own stream tells. */
  lemma GoesStaleExactly(s: Sync, e: Event)
    requires IsOpen(s.sourceMemory) && Mergeable(s.list)
    ensures IsStale(Step(s, e)) <==>
      match e
      case Add(y, _) => IsAudio(y.sceneType) && y.sceneType != AudioOf(s.list)
      case Remove(x) => IsNeeded(s.list, x) && |s.list| - Count(s.list, x) >= AV_SYNC_STREAM_COUNT
  {
    match e
    case Add(y, answers) => AddGoesStaleExactly(s, y, answers);
    case Remove(x) => RemoveGoesStaleExactly(s, x);
  }

  lemma StillMergesExactly(list: seq<Stream>, rest: seq<Stream>, x: Stream)
    requires Mergeable(list) && forall y :: y in rest <==> y in list && y != x
    ensures Mergeable(rest) <==> !IsNeeded(list, x)
  {
    ScenesDiffer();
    forall scene | scene in Scenes(list)
      ensures scene in Scenes(rest) <==> scene != x.sceneType || exists y :: y in list && y.sceneType == scene && y != x
    {
    }
    assert Scenes(rest) <= Scenes(list);
  }

  lemma AfterOneMore(es: seq<Event>, e: Event)
    ensures After(es + [e]) == Step(After(es), e)
  {
    assert (es + [e])[..|es|] == es;
  }

  lemma SpeakerAndScreenMerge(speaker: Stream, screen: Stream)
    requires speaker.sceneType == SCENE_TYPE_D_SPEAKER && screen.sceneType == SCENE_TYPE_D_SCREEN
    ensures Mergeable([speaker, screen])
  {
    ScenesDiffer();
    assert speaker in [speaker, screen] && screen in [speaker, screen];
  }

  lemma MicAndSpeakerNever(list: seq<Stream>, mic: Stream, speaker: Stream)
    requires mic in list && mic.sceneType == SCENE_TYPE_D_MIC
    requires speaker in list && speaker.sceneType == SCENE_TYPE_D_SPEAKER
    ensures !Mergeable(list)
  {}

  lemma SpeakerAndScreenOpen(speaker: Stream, screen: Stream, answers: Answers)
    requires speaker.sceneType == SCENE_TYPE_D_SPEAKER && screen.sceneType == SCENE_TYPE_D_SCREEN
    requires answers.failing == {} && !answers.arrayFails && answers.fd > 0
    ensures var s := After([] + [Add(speaker, answers)] + [Add(screen, answers)]);
      IsOpen(s.sourceMemory) && s.list == [speaker, screen] && Mergeable(s.list)
  {
    AfterOneMore([], Add(speaker, answers));
    AfterOneMore([] + [Add(speaker, answers)], Add(screen, answers));
    assert [] + [speaker] + [screen] == [speaker, screen];
    SpeakerAndScreenMerge(speaker, screen);
  }

  /** A microphone joining a speaker and its screen leaves the memory open. */
  lemma StaleRun(speaker: Stream, screen: Stream, mic: Stream, answers: Answers)
    requires speaker.sceneType == SCENE_TYPE_D_SPEAKER && screen.sceneType == SCENE_TYPE_D_SCREEN
    requires mic.sceneType == SCENE_TYPE_D_MIC
    requires answers.failing == {} && !answers.arrayFails && answers.fd > 0
    ensures IsStale(After([] + [Add(speaker, answers)] + [Add(screen, answers)] + [Add(mic, answers)]))
  {
    SpeakerAndScreenOpen(speaker, screen, answers);
    AfterOneMore([] + [Add(speaker, answers)] + [Add(screen, answers)], Add(mic, answers));
    var s := After([] + [Add(speaker, answers)] + [Add(screen, answers)]);
    assert speaker in s.list;
    MicAndSpeakerNever(s.list + [mic], mic, speaker);
    AddGoesStaleExactly(s, mic, answers);
  }

  /** A removal tells exactly the peer of the one stream that is left, if one is, to stop. */
  lemma StopIsSentExactly(s: Sync, x: Stream, peer: string)
    ensures var sent := Removed(s, x).sent;
      && |s.sent| <= |sent| && s.sent == sent[..|s.sent|]
      && (StopAvSync(peer) in sent[|s.sent|..] <==>
            |Without(s.list, x)| == 1 && Without(s.list, x)[0].peerDevId == peer)
  {
    var list, sent := Without(s.list, x), Removed(s, x).sent;
    assert sent[|s.sent|..] == if |list| >= AV_SYNC_STREAM_COUNT then [] else StopMessages(list);
    if |list| == 1 {
      assert StopMessages(list) == [StopAvSync(list[0].peerDevId)];
    }
  }

  /** So a peer whose last stream is removed is never told. */
  lemma RemovedPeerIsNotTold(s: Sync, x: Stream)
    requires forall y | y in s.list && y != x :: y.peerDevId != x.peerDevId
    ensures var sent := Removed(s, x).sent;
      |s.sent| <= |sent| && s.sent == sent[..|s.sent|] && StopAvSync(x.peerDevId) !in sent[|s.sent|..]
  {
    WithoutMembers(s.list, x);
    StopIsSentExactly(s, x, x.peerDevId);
  }

  // ----- Who is told to start -----

  /**
   * An addition appends its stream to the list.  If that merges, the k-th new message tells the k-th stream's
   * peer to start with the merged group; if not, there is no new message.
   */
  lemma StartsFollowTheList(s: Sync, y: Stream, answers: Answers)
    ensures var q := Added(s, y, answers);
      && q.list == s.list + [y]
      && |s.sent| <= |q.sent| && q.sent[..|s.sent|] == s.sent
      && match Merged(s.list + [y], answers)
         case None => |q.sent| == |s.sent|
         case Some(group) =>
           && |q.sent| == |s.sent| + |s.list| + 1
           && forall k | 0 <= k < |s.list| + 1 ::
                q.sent[|s.sent| + k] == StartAvSync(group, (s.list + [y])[k].peerDevId)
  {
    var list := s.list + [y];
    if Merged(list, answers).Some? {
      MergingMeansTwo(list, answers);
    }
  }

  /** So a peer is told to start exactly if the list merges and a stream of the peer is listed. */
  lemma StartIsSentExactly(s: Sync, y: Stream, answers: Answers, group: set<Entry>, peer: string)
    ensures |s.sent| <= |Added(s, y, answers).sent|
    ensures StartAvSync(group, peer) in Added(s, y, answers).sent[|s.sent|..] <==>
      && Merged(s.list + [y], answers) == Some(group)
      && exists x :: x in s.list + [y] && x.peerDevId == peer
  {
    StartsFollowTheList(s, y, answers);
    var list, q := s.list + [y], Added(s, y, answers);
    var sent := q.sent[|s.sent|..];
    assert forall k | 0 <= k < |sent| :: sent[k] == q.sent[|s.sent| + k];
    if x :| x in list && x.peerDevId == peer {
      var k :| 0 <= k < |list| && list[k] == x;
      assert Merged(list, answers) == Some(group) ==> sent[k] == StartAvSync(group, peer);
    }
  }

  // ----- The memory itself -----

  predicate MemoryIsRight(m: Memory) {
    if m.fd > 0 then m.size == 12 && m.name == "sourceSharedMemory" && m.mapped else !m.mapped
  }

  /** An open memory has room for one clock unit, so never for a reader of the clock, who demands 604 bytes. */
  lemma {:induction false} MemoryHoldsOneUnit(es: seq<Event>)
    ensures MemoryIsRight(After(es).sourceMemory)
    ensures IsOpen(After(es).sourceMemory) <==> After(es).sourceMemory.fd > 0
  {
    if es != [] {
      MemoryHoldsOneUnit(es[..|es| - 1]);
    }
  }

  // ----- The order of the list -----

  /** A removal keeps the other streams in their order. */
  lemma {:induction false} WithoutKeepsOrder(list: seq<Stream>, x: Stream)
    ensures Subsequence(Without(list, x), list)
  {
    if list != [] {
      var before, last := list[..|list| - 1], list[|list| - 1];
      WithoutKeepsOrder(before, x);
      assert list == before + [last];
      assert Without(list, x) == if last == x then Without(before, x) else Without(before, x) + [last];
      SubsequenceGrows(Without(before, x), before, last);
    }
  }
}
