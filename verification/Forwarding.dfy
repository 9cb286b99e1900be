/** Messages and their forwarding: what `create` accepts can be forwarded any
    number of times. */
module Forwarding {
  import opened Options
  import opened AttachmentTypes

  const MAX_MESSAGE_LENGTH := 4096
  const MAX_MEDIA_PER_MESSAGE := 10
  const MAX_FILES_PER_MESSAGE := 1

  datatype MessageType =
    | TextMessage | ImageMessage | FileMessage | SystemMessage
    | ReplyMessage | ForwardMessage | VoiceMessage | VideoNoteMessage

  /** `file` stands for the key, type, name, size and preview data that a copy shares. */
  datatype Attachment = Attachment(id: nat, chat: nat, uploader: int, kind: Kind, status: Status, file: nat,
                                   source: Option<nat>, messageSeq: Option<int>)

  datatype Origin = Origin(chat: Option<nat>, message: Option<nat>, author: Option<int>)

  const NO_ORIGIN := Origin(None, None, None)

  datatype Message = Message(id: nat, author: Option<int>, chat: nat, msgSeq: int, kind: MessageType, content: Option<string>,
                             replyTo: Option<nat>, origin: Origin, attachments: seq<Attachment>, isDeleted: bool, isEdited: bool)

  datatype Error = InvalidMessage | TooLong(length: nat) | AttachmentLimitExceeded(count: nat) | AttachmentNotFound

  datatype Result<+T> = Ok(value: T) | Raise(error: Error)

  // ----- validation -----

  predicate HasText(content: Option<string>) {
    content.Some? && content.value != ""
  }

  function ContentError(content: Option<string>): Option<Error> {
    if !HasText(content) then None
    else if |content.value| > MAX_MESSAGE_LENGTH then Some(TooLong(|content.value|))
    else if '\0' in content.value then Some(InvalidMessage)
    else None
  }

  function Count(attachments: seq<Attachment>, kinds: set<Kind>): nat {
    if attachments == [] then 0
    else (if attachments[0].kind in kinds then 1 else 0) + Count(attachments[1..], kinds)
  }

  predicate AllSucceeded(attachments: seq<Attachment>) {
    forall a <- attachments :: a.status.Success?
  }

  function AttachmentsError(kind: MessageType, attachments: seq<Attachment>): Option<Error> {
    CountsError(kind, Count(attachments, {Image, Video}), Count(attachments, {File}), Count(attachments, {Voice}),
                Count(attachments, {VideoNote}), AllSucceeded(attachments))
  }

  function CountsError(kind: MessageType, media: nat, files: nat, voice: nat, notes: nat, success: bool): Option<Error> {
    var exclusive := voice + notes;
    if media > MAX_MEDIA_PER_MESSAGE then Some(AttachmentLimitExceeded(media))
    else if files > MAX_FILES_PER_MESSAGE then Some(AttachmentLimitExceeded(files))
    else if exclusive > 1 then Some(AttachmentLimitExceeded(exclusive))
    else if exclusive > 0 && (media > 0 || files > 0) then Some(AttachmentLimitExceeded(exclusive + media + files))
    else if kind.VoiceMessage? && voice != 1 then Some(InvalidMessage)
    else if kind.VideoNoteMessage? && notes != 1 then Some(InvalidMessage)
    else if exclusive > 0 && !kind.VoiceMessage? && !kind.VideoNoteMessage? && !kind.ForwardMessage? then Some(InvalidMessage)
    else if !success then Some(AttachmentNotFound)
    else None
  }

  function Bound(attachments: seq<Attachment>, msgSeq: int): (r: seq<Attachment>)
    ensures |r| == |attachments| && forall i :: 0 <= i < |r| ==> r[i] == attachments[i].(messageSeq := Some(msgSeq))
  {
    seq(|attachments|, i requires 0 <= i < |attachments| => attachments[i].(messageSeq := Some(msgSeq)))
  }

  function Create(id: nat, sender: Option<int>, chat: nat, msgSeq: int, content: Option<string>, replyTo: Option<nat>,
                  kind: MessageType, origin: Origin, attachments: Option<seq<Attachment>>): Result<Message>
  {
    if kind.ReplyMessage? && replyTo.None? then Raise(InvalidMessage)
    else if ContentError(content).Some? then Raise(ContentError(content).value)
    else
      var own := if attachments.Some? then Bound(attachments.value, msgSeq) else [];
      if (attachments.Some? || kind.VoiceMessage? || kind.VideoNoteMessage?) && AttachmentsError(kind, own).Some?
      then Raise(AttachmentsError(kind, own).value)
      else Ok(Message(id, sender, chat, msgSeq, kind, content, replyTo, origin, own, false, false))
  }

  // ----- forwarding -----

  function Insert(a: Attachment, sorted: seq<Attachment>): seq<Attachment> {
    if sorted == [] || a.id <= sorted[0].id then [a] + sorted else [sorted[0]] + Insert(a, sorted[1..])
  }

  function SortById(attachments: seq<Attachment>): seq<Attachment> {
    if attachments == [] then [] else Insert(attachments[0], SortById(attachments[1..]))
  }

  function Succeeded(attachments: seq<Attachment>): seq<Attachment> {
    if attachments == [] then []
    else (if attachments[0].status.Success? then [attachments[0]] else []) + Succeeded(attachments[1..])
  }

  function CopyFor(a: Attachment, chat: nat, id: nat): Attachment {
    Attachment(id, chat, a.uploader, a.kind, Success, a.file, Some(a.id), None)
  }

  /** New ids come from a clock that only goes up: `firstId`, `firstId` + 1, .. */
  function Copies(attachments: seq<Attachment>, chat: nat, firstId: nat): seq<Attachment> {
    if attachments == [] then []
    else [CopyFor(attachments[0], chat, firstId)] + Copies(attachments[1..], chat, firstId + 1)
  }

  function ForwardableAttachments(m: Message, chat: nat, firstId: nat): seq<Attachment> {
    Copies(Succeeded(SortById(m.attachments)), chat, firstId)
  }

  predicate IsForwardable(m: Message) {
    if m.isDeleted || m.kind.SystemMessage? then false
    else HasText(m.content) || exists a <- m.attachments :: a.status.Success?
  }

  function TypeForKinds(kinds: set<Kind>): MessageType {
    if Voice in kinds then VoiceMessage
    else if VideoNote in kinds then VideoNoteMessage
    else if Image in kinds || Video in kinds then ImageMessage
    else if File in kinds then FileMessage
    else TextMessage
  }

  function CopyType(m: Message): MessageType {
    if !m.kind.ReplyMessage? && !m.kind.ForwardMessage? then m.kind
    else TypeForKinds(set a | a in m.attachments && a.status.Success? :: a.kind)
  }

  /** How the forward of a message names its origin. */
  function OriginOf(m: Message): Origin {
    if m.kind.ForwardMessage? then m.origin else Origin(Some(m.chat), Some(m.id), m.author)
  }

  datatype Hop = Hop(sender: int, chat: nat, msgSeq: int, hideAuthor: bool, firstId: nat)

  function CreateForward(m: Message, h: Hop): Result<Message> {
    var attachments := ForwardableAttachments(m, h.chat, h.firstId);
    var id := h.firstId + |attachments|;
    if h.hideAuthor then
      Create(id, Some(h.sender), h.chat, h.msgSeq, m.content, None, CopyType(m), NO_ORIGIN, Some(attachments))
    else
      Create(id, Some(h.sender), h.chat, h.msgSeq, m.content, None, ForwardMessage, OriginOf(m), Some(attachments))
  }

  // ----- what holds of every message -----

  predicate WellMade(m: Message) {
    ContentError(m.content).None? && AttachmentsError(m.kind, m.attachments).None?
  }

  lemma {:induction false} BoundCounts(attachments: seq<Attachment>, msgSeq: int, kinds: set<Kind>)
    ensures Count(Bound(attachments, msgSeq), kinds) == Count(attachments, kinds)
    ensures AllSucceeded(Bound(attachments, msgSeq)) == AllSucceeded(attachments)
  {
    if attachments != [] {
      var r := Bound(attachments, msgSeq);
      assert r[1..] == Bound(attachments[1..], msgSeq);
      BoundCounts(attachments[1..], msgSeq, kinds);
      assert attachments == [attachments[0]] + attachments[1..] && r == [r[0]] + r[1..];
    }
  }

  lemma CreateIsWellMade(id: nat, sender: Option<int>, chat: nat, msgSeq: int, content: Option<string>, replyTo: Option<nat>,
                         kind: MessageType, origin: Origin, attachments: Option<seq<Attachment>>)
    ensures var r := Create(id, sender, chat, msgSeq, content, replyTo, kind, origin, attachments);
            r.Ok? ==> WellMade(r.value)
  {
  }

  /** An accepted message carries what it was given: author, chat, seq, kind, text,
      reply target, origin and the attachments in order, each bound to the seq.  An
      accepted reply names its target. */
  lemma CreateCarries(id: nat, sender: Option<int>, chat: nat, msgSeq: int, content: Option<string>, replyTo: Option<nat>,
                      kind: MessageType, origin: Origin, attachments: Option<seq<Attachment>>)
    requires Create(id, sender, chat, msgSeq, content, replyTo, kind, origin, attachments).Ok?
    ensures var m := Create(id, sender, chat, msgSeq, content, replyTo, kind, origin, attachments).value;
            && m.id == id && m.author == sender && m.chat == chat && m.msgSeq == msgSeq && m.kind == kind
            && m.content == content && m.replyTo == replyTo && m.origin == origin && !m.isDeleted && !m.isEdited
            && (kind.ReplyMessage? ==> m.replyTo.Some?)
            && |m.attachments| == (if attachments.Some? then |attachments.value| else 0)
            && forall i :: 0 <= i < |m.attachments| ==> m.attachments[i] == attachments.value[i].(messageSeq := Some(msgSeq))
  {
  }

  /** Counting goes attachment by attachment. */
  lemma {:induction false} CountIs(a: seq<Attachment>, b: seq<Attachment>, x: Attachment, kinds: set<Kind>)
    ensures Count([], kinds) == 0 && Count([x], kinds) == (if x.kind in kinds then 1 else 0)
    ensures Count(a + b, kinds) == Count(a, kinds) + Count(b, kinds)
  {
    assert [x][1..] == [];
    if a == [] {
      assert a + b == b;
    } else {
      CountIs(a[1..], b, x, kinds);
      assert (a + b)[1..] == a[1..] + b;
    }
  }

  function Given(attachments: Option<seq<Attachment>>): seq<Attachment> {
    if attachments.Some? then attachments.value else []
  }

  /** Exactly what is accepted: a reply has a target, a text is not too long and
      without NUL, and the attachments, if any were given or the kind demands one,
      are few enough, suit the kind and have all been processed. */
  lemma AcceptedExactly(id: nat, sender: Option<int>, chat: nat, msgSeq: int, content: Option<string>, replyTo: Option<nat>,
                        kind: MessageType, origin: Origin, attachments: Option<seq<Attachment>>)
    ensures var given := Given(attachments);
            var media, files := Count(given, {Image, Video}), Count(given, {File});
            var voice, notes := Count(given, {Voice}), Count(given, {VideoNote});
            Create(id, sender, chat, msgSeq, content, replyTo, kind, origin, attachments).Ok? <==>
              && (kind == ReplyMessage ==> replyTo.Some?)
              && (content.Some? ==> |content.value| <= 4096 && '\0' !in content.value)
              && (kind == VoiceMessage ==> voice == 1) && (kind == VideoNoteMessage ==> notes == 1)
              && media <= 10 && files <= 1 && voice + notes <= 1
              && (voice + notes == 1 ==> media == 0 && files == 0 && kind in {VoiceMessage, VideoNoteMessage, ForwardMessage})
              && forall a <- given :: a.status == Success
  {
    var given := Given(attachments);
    BoundCounts(given, msgSeq, {Image, Video});
    BoundCounts(given, msgSeq, {File});
    BoundCounts(given, msgSeq, {Voice});
    BoundCounts(given, msgSeq, {VideoNote});
  }

  /** What each error says. */
  lemma RefusedBecause(id: nat, sender: Option<int>, chat: nat, msgSeq: int, content: Option<string>, replyTo: Option<nat>,
                       kind: MessageType, origin: Origin, attachments: Option<seq<Attachment>>)
    requires Create(id, sender, chat, msgSeq, content, replyTo, kind, origin, attachments).Raise?
    ensures var given := Given(attachments);
            var media, files := Count(given, {Image, Video}), Count(given, {File});
            var exclusive := Count(given, {Voice}) + Count(given, {VideoNote});
            match Create(id, sender, chat, msgSeq, content, replyTo, kind, origin, attachments).error
            case TooLong(n) => content.Some? && n == |content.value| > 4096
            case AttachmentNotFound => exists a <- given :: a.status != Success
            case AttachmentLimitExceeded(n) =>
              n == (if media > 10 then media else if files > 1 then files else if exclusive > 1 then exclusive else 1 + media + files)
              && (media > 10 || files > 1 || exclusive > 1 || (exclusive == 1 && media + files > 0))
            case InvalidMessage =>
              || (kind == ReplyMessage && replyTo.None?) || (content.Some? && '\0' in content.value)
              || (kind == VoiceMessage && Count(given, {Voice}) != 1) || (kind == VideoNoteMessage && Count(given, {VideoNote}) != 1)
              || (exclusive > 0 && kind !in {VoiceMessage, VideoNoteMessage, ForwardMessage})
  {
    var given := Given(attachments);
    BoundCounts(given, msgSeq, {Image, Video});
    BoundCounts(given, msgSeq, {File});
    BoundCounts(given, msgSeq, {Voice});
    BoundCounts(given, msgSeq, {VideoNote});
  }

  /** The kinds of the attachments a recipient sees, in order. */
  function KindsInOrder(m: Message): seq<Kind> {
    KindsOf(Succeeded(SortById(m.attachments)))
  }

  function KindsOf(attachments: seq<Attachment>): seq<Kind> {
    if attachments == [] then [] else [attachments[0].kind] + KindsOf(attachments[1..])
  }

  function CountKinds(ks: seq<Kind>, kinds: set<Kind>): nat {
    if ks == [] then 0 else (if ks[0] in kinds then 1 else 0) + CountKinds(ks[1..], kinds)
  }

  lemma {:induction false} CountByKinds(attachments: seq<Attachment>, kinds: set<Kind>)
    ensures Count(attachments, kinds) == CountKinds(KindsOf(attachments), kinds)
  {
    if attachments != [] {
      CountByKinds(attachments[1..], kinds);
      assert KindsOf(attachments)[1..] == KindsOf(attachments[1..]);
    }
  }

  lemma {:induction false} InsertCount(a: Attachment, s: seq<Attachment>, kinds: set<Kind>)
    ensures Count(Insert(a, s), kinds) == Count(s, kinds) + if a.kind in kinds then 1 else 0
    ensures forall x :: x in Insert(a, s) <==> x == a || x in s
  {
    if s == [] || a.id <= s[0].id {
      assert ([a] + s)[1..] == s;
    } else {
      InsertCount(a, s[1..], kinds);
      assert Insert(a, s)[1..] == Insert(a, s[1..]);
      assert s == [s[0]] + s[1..];
    }
  }

  lemma {:induction false} SortCount(s: seq<Attachment>, kinds: set<Kind>)
    ensures Count(SortById(s), kinds) == Count(s, kinds)
    ensures forall x :: x in SortById(s) <==> x in s
  {
    if s != [] {
      SortCount(s[1..], kinds);
      InsertCount(s[0], SortById(s[1..]), kinds);
      assert s == [s[0]] + s[1..];
    }
  }

  lemma {:induction false} AllKept(s: seq<Attachment>)
    requires AllSucceeded(s)
    ensures Succeeded(s) == s
  {
    if s != [] {
      AllKept(s[1..]);
      assert s == [s[0]] + s[1..];
    }
  }

  predicate InOrder(s: seq<Attachment>) {
    forall i, j :: 0 <= i < j < |s| ==> s[i].id < s[j].id
  }

  lemma {:induction false} SortedStays(s: seq<Attachment>)
    requires InOrder(s)
    ensures SortById(s) == s
  {
    if s != [] {
      var rest := s[1..];
      assert forall i | 0 <= i < |rest| :: rest[i] == s[i + 1];
      SortedStays(rest);
      assert s == [s[0]] + rest;
    }
  }

  lemma {:induction false} CopiesAre(s: seq<Attachment>, chat: nat, firstId: nat)
    ensures var r := Copies(s, chat, firstId);
            && |r| == |s| && AllSucceeded(r) && KindsOf(r) == KindsOf(s)
            && forall i :: 0 <= i < |s| ==> r[i] == CopyFor(s[i], chat, firstId + i)
  {
    if s != [] {
      CopiesAre(s[1..], chat, firstId + 1);
      var r := Copies(s, chat, firstId);
      assert r[1..] == Copies(s[1..], chat, firstId + 1);
      assert r == [r[0]] + r[1..];
    }
  }

  lemma {:induction false} BoundKinds(s: seq<Attachment>, msgSeq: int)
    ensures KindsOf(Bound(s, msgSeq)) == KindsOf(s)
  {
    if s != [] {
      assert Bound(s, msgSeq)[1..] == Bound(s[1..], msgSeq);
      BoundKinds(s[1..], msgSeq);
    }
  }

  predicate IdsAscend(s: seq<Attachment>) {
    forall i, j :: 0 <= i < j < |s| ==> s[i].id <= s[j].id
  }

  lemma AscendCons(a: Attachment, s: seq<Attachment>)
    requires IdsAscend(s) && forall x <- s :: a.id <= x.id
    ensures IdsAscend([a] + s)
  {
  }

  lemma AscendTail(s: seq<Attachment>)
    requires IdsAscend(s) && s != []
    ensures IdsAscend(s[1..]) && forall x <- s[1..] :: s[0].id <= x.id
  {
  }

  lemma Uncons(s: seq<Attachment>)
    requires s != []
    ensures multiset(s) == multiset{s[0]} + multiset(s[1..])
  {
    assert s == [s[0]] + s[1..];
  }

  lemma {:induction false} InsertSorts(a: Attachment, s: seq<Attachment>)
    requires IdsAscend(s)
    ensures IdsAscend(Insert(a, s)) && multiset(Insert(a, s)) == multiset{a} + multiset(s)
  {
    if s == [] || a.id <= s[0].id {
      AscendCons(a, s);
    } else {
      AscendTail(s);
      InsertSorts(a, s[1..]);
      InsertCount(a, s[1..], {});
      AscendCons(s[0], Insert(a, s[1..]));
      Uncons(s);
    }
  }

  lemma {:induction false} SortSorts(s: seq<Attachment>)
    ensures IdsAscend(SortById(s)) && multiset(SortById(s)) == multiset(s)
  {
    if s != [] {
      SortSorts(s[1..]);
      InsertSorts(s[0], SortById(s[1..]));
      Uncons(s);
    }
  }

  lemma {:induction false} SucceededAre(s: seq<Attachment>)
    ensures forall a :: multiset(Succeeded(s))[a] == if a.status.Success? then multiset(s)[a] else 0
  {
    if s != [] {
      SucceededAre(s[1..]);
      Uncons(s);
      var rest := Succeeded(s[1..]);
      assert multiset([s[0]] + rest) == multiset{s[0]} + multiset(rest);
    }
  }

  lemma {:induction false} SucceededAscend(s: seq<Attachment>)
    requires IdsAscend(s)
    ensures IdsAscend(Succeeded(s)) && forall a <- Succeeded(s) :: a in s
  {
    if s != [] {
      AscendTail(s);
      SucceededAscend(s[1..]);
      assert forall a <- s[1..] :: a in s;
      AscendCons(s[0], Succeeded(s[1..]));
    }
  }

  /** A forward of any message takes along exactly the attachments that have been
      processed, oldest first, and a copy of each: the same kind, file and uploader,
      marked as processed and naming what it was made from. */
  lemma ForwardTakes(m: Message, chat: nat, firstId: nat)
    ensures var taken, r := Succeeded(SortById(m.attachments)), ForwardableAttachments(m, chat, firstId);
            && (forall a :: multiset(taken)[a] == if a.status == Success then multiset(m.attachments)[a] else 0)
            && (forall i, j :: 0 <= i < j < |taken| ==> taken[i].id <= taken[j].id)
            && |r| == |taken|
            && forall i :: 0 <= i < |r| ==>
                 && r[i].id == firstId + i && r[i].chat == chat && r[i].uploader == taken[i].uploader
                 && r[i].kind == taken[i].kind && r[i].status == Success && r[i].file == taken[i].file
                 && r[i].source == Some(taken[i].id) && r[i].messageSeq.None?
  {
    SortSorts(m.attachments);
    SucceededAre(SortById(m.attachments));
    SucceededAscend(SortById(m.attachments));
    CopiesAre(Succeeded(SortById(m.attachments)), chat, firstId);
  }

  /** What may be forwarded. */
  lemma ForwardableMeans(m: Message)
    ensures IsForwardable(m) <==>
      !m.isDeleted && m.kind != SystemMessage
      && ((m.content.Some? && m.content.value != "") || exists a <- m.attachments :: a.status == Success)
  {
  }

  /** The type a copy is given when the author is hidden: a plain message keeps its
      own; a reply or a forward is typed by what it takes along. */
  lemma CopyTypeChosen(m: Message)
    ensures m.kind !in {ReplyMessage, ForwardMessage} ==> CopyType(m) == m.kind
    ensures m.kind in {ReplyMessage, ForwardMessage} ==>
      var takes := (kind: Kind) => exists a <- m.attachments :: a.status == Success && a.kind == kind;
      && (CopyType(m) == VoiceMessage <==> takes(Voice))
      && (CopyType(m) == VideoNoteMessage <==> !takes(Voice) && takes(VideoNote))
      && (CopyType(m) == ImageMessage <==> !takes(Voice) && !takes(VideoNote) && (takes(Image) || takes(Video)))
      && (CopyType(m) == FileMessage <==> takes(File) && !takes(Voice) && !takes(VideoNote) && !takes(Image) && !takes(Video))
      && (CopyType(m) == TextMessage <==> forall a <- m.attachments :: a.status != Success)
  {
    var kinds := set a | a in m.attachments && a.status.Success? :: a.kind;
    forall kind: Kind ensures kind in kinds <==> exists a <- m.attachments :: a.status == Success && a.kind == kind {
    }
    forall a <- m.attachments | a.status == Success ensures a.kind in {Voice, VideoNote, Image, Video, File} {
      match a.kind case Image => case Video => case File => case Voice => case VideoNote =>
    }
  }

  /** The attachments of a forward: all succeeded, in order, of the same kinds. */
  lemma ForwardedAttachments(m: Message, h: Hop)
    requires WellMade(m)
    ensures var own := Bound(ForwardableAttachments(m, h.chat, h.firstId), h.msgSeq);
            && AllSucceeded(own) && KindsOf(Succeeded(SortById(own))) == KindsInOrder(m)
            && |own| == |m.attachments|
            && forall kinds :: Count(own, kinds) == Count(m.attachments, kinds)
  {
    var sorted := SortById(m.attachments);
    forall kinds ensures Count(sorted, kinds) == Count(m.attachments, kinds) {
      SortCount(m.attachments, kinds);
    }
    SortCount(m.attachments, {});
    AllKept(sorted);
    SortLength(m.attachments);
    var copies := Copies(sorted, h.chat, h.firstId);
    CopiesAre(sorted, h.chat, h.firstId);
    var own := Bound(copies, h.msgSeq);
    BoundKinds(copies, h.msgSeq);
    BoundCounts(copies, h.msgSeq, {});
    SortedStays(own);
    AllKept(own);
    forall kinds ensures Count(own, kinds) == Count(m.attachments, kinds) {
      CountByKinds(own, kinds);
      CountByKinds(sorted, kinds);
    }
  }

  /** Each attachment of `r` is a copy for the target chat: same file and
      uploader, naming the attachment it was made from, bound to the new message. */
  ghost predicate SharesFiles(m: Message, r: Message, h: Hop) {
    var sources := SortById(m.attachments);
    && |r.attachments| == |sources|
    && forall i :: 0 <= i < |sources| ==>
         && r.attachments[i].file == sources[i].file && r.attachments[i].uploader == sources[i].uploader
         && r.attachments[i].source == Some(sources[i].id) && r.attachments[i].chat == h.chat
         && r.attachments[i].messageSeq == Some(h.msgSeq)
  }

  lemma ForwardSharesFiles(m: Message, h: Hop)
    requires WellMade(m)
    ensures var r := CreateForward(m, h); r.Ok? ==> SharesFiles(m, r.value, h)
  {
    var sorted := SortById(m.attachments);
    SortCount(m.attachments, {});
    AllKept(sorted);
    CopiesAre(sorted, h.chat, h.firstId);
  }

  lemma {:induction false} InsertLength(a: Attachment, s: seq<Attachment>)
    ensures |Insert(a, s)| == |s| + 1
  {
    if s != [] && a.id > s[0].id { InsertLength(a, s[1..]); }
  }

  lemma {:induction false} SortLength(s: seq<Attachment>)
    ensures |SortById(s)| == |s|
  {
    if s != [] {
      SortLength(s[1..]);
      InsertLength(s[0], SortById(s[1..]));
    }
  }

  lemma {:induction false} CountPositive(s: seq<Attachment>, kinds: set<Kind>)
    ensures Count(s, kinds) > 0 <==> exists a <- s :: a.kind in kinds
  {
    if s != [] {
      CountPositive(s[1..], kinds);
      assert s == [s[0]] + s[1..];
    }
  }

  /** The type chosen for a copy suits the attachments it takes along. */
  lemma CopyTypeFits(m: Message)
    requires WellMade(m) && IsForwardable(m)
    ensures AttachmentsError(CopyType(m), m.attachments).None?
    ensures !CopyType(m).ReplyMessage? && !CopyType(m).ForwardMessage? && !CopyType(m).SystemMessage?
  {
    CountPositive(m.attachments, {Voice});
    CountPositive(m.attachments, {VideoNote});
    if m.kind.ReplyMessage? || m.kind.ForwardMessage? {
      var kinds := set a | a in m.attachments && a.status.Success? :: a.kind;
      assert Voice in kinds <==> exists a <- m.attachments :: a.kind in {Voice};
      assert VideoNote in kinds <==> exists a <- m.attachments :: a.kind in {VideoNote};
    }
  }

  /** Forwarding a forwardable message never raises, whether the author is hidden
      or shown; the result is well made, forwardable, and shows the same text and
      attachments.  With the author shown it names the origin, otherwise none. */
  lemma ForwardCloses(m: Message, h: Hop)
    requires WellMade(m) && IsForwardable(m)
    ensures var r := CreateForward(m, h);
            && r.Ok? && WellMade(r.value) && IsForwardable(r.value)
            && r.value.content == m.content && KindsInOrder(r.value) == KindsInOrder(m) && SharesFiles(m, r.value, h)
            && r.value.author == Some(h.sender) && r.value.chat == h.chat && r.value.msgSeq == h.msgSeq
            && r.value.replyTo.None? && !r.value.isEdited && r.value.id == h.firstId + |m.attachments|
            && (h.hideAuthor ==> r.value.kind == CopyType(m))
            && (h.hideAuthor ==> !r.value.kind.ForwardMessage? && r.value.origin == Origin(None, None, None))
            && (!h.hideAuthor ==> r.value.kind.ForwardMessage?)
            && (!h.hideAuthor && m.kind.ForwardMessage? ==> r.value.origin == m.origin)
            && (!h.hideAuthor && !m.kind.ForwardMessage? ==> r.value.origin == Origin(Some(m.chat), Some(m.id), m.author))
  {
    ForwardedAttachments(m, h);
    CopyTypeFits(m);
    ForwardSharesFiles(m, h);
    var own := Bound(ForwardableAttachments(m, h.chat, h.firstId), h.msgSeq);
    if !HasText(m.content) {
      assert own != [] && own[0] in own;
    }
  }

  // ----- chains -----

  function ForwardAll(m: Message, hops: seq<Hop>): Result<Message> {
    if hops == [] then Ok(m)
    else
      var before := ForwardAll(m, hops[..|hops| - 1]);
      if before.Raise? then before else CreateForward(before.value, hops[|hops| - 1])
  }

  /** Any chain of forwards succeeds and keeps text and attachments; with the
      author shown throughout, it names the message it started from. */
  lemma {:induction false} ChainCloses(m: Message, hops: seq<Hop>)
    requires WellMade(m) && IsForwardable(m)
    ensures var r := ForwardAll(m, hops);
            && r.Ok? && WellMade(r.value) && IsForwardable(r.value)
            && r.value.content == m.content && KindsInOrder(r.value) == KindsInOrder(m)
            && (hops != [] && (forall h <- hops :: !h.hideAuthor) ==> r.value.kind.ForwardMessage?)
            && (hops != [] && (forall h <- hops :: !h.hideAuthor) && m.kind.ForwardMessage? ==> r.value.origin == m.origin)
            && (hops != [] && (forall h <- hops :: !h.hideAuthor) && !m.kind.ForwardMessage?
                ==> r.value.origin == Origin(Some(m.chat), Some(m.id), m.author))
  {
    if hops != [] {
      var init := hops[..|hops| - 1];
      ChainCloses(m, init);
      ForwardCloses(ForwardAll(m, init).value, hops[|hops| - 1]);
    }
  }

  /** After a hop that hides the author, the following hops name the copy it made. */
  lemma HiddenHopRestartsOrigin(m: Message, hidden: Hop, hops: seq<Hop>)
    requires WellMade(m) && IsForwardable(m) && hidden.hideAuthor
    requires hops != [] && forall h <- hops :: !h.hideAuthor
    ensures var copy := CreateForward(m, hidden);
            && copy.Ok? && ForwardAll(copy.value, hops).Ok?
            && ForwardAll(copy.value, hops).value.origin == Origin(Some(hidden.chat), Some(copy.value.id), Some(hidden.sender))
  {
    ForwardCloses(m, hidden);
    ChainCloses(CreateForward(m, hidden).value, hops);
  }

  // ----- the entity -----

  class MessageEntity {
    var state: Message

    constructor (state: Message)
      ensures this.state == state
    {
      this.state := state;
    }

    /** The fields are set before they are validated: after an error the object
        holds the rejected text. */
    method UpdateContent(content: string) returns (error: Option<Error>)
      modifies this
      ensures error == ContentError(Some(content))
      ensures state == old(state).(content := Some(content), isEdited := true)
      ensures error.None? && old(WellMade(state)) ==> WellMade(state)
    {
      state := state.(content := Some(content), isEdited := true);
      error := ContentError(state.content);
    }

    method Delete()
      modifies this
      ensures state == old(state).(isDeleted := true) && !IsForwardable(state)
    {
      state := state.(isDeleted := true);
    }
  }
}
