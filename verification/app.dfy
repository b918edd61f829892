/**
 * The in-memory session store of the LAN chat relay: the process-wide message
 * history, the registry of uploaded files, and the four handlers that read or
 * change them (upload, download, connect, send_message).
 *
 * Generated identifiers (uuid4 in app.py) are supplied by the caller and
 * required to be fresh; Socket.IO delivery is reduced to the ghost log of the
 * payloads handed to the broadcast.
 */
module App {

  newtype byte = x: int | 0 <= x < 256

  datatype Option<+T> = None | Some(value: T)

  datatype Result<+T, +E> = Ok(value: T) | Err(error: E)

  /** One uploaded part of a multipart request, as it appears in `request.files`. */
  datatype FilePart = FilePart(filename: string, data: seq<byte>, contentType: string)

  /** One entry of the session history. */
  datatype Record =
    | Text(id: string, content: string)
    | File(id: string, filename: string, fileId: string, size: nat)

  /** One value of the file registry, keyed by its file id. */
  datatype FileEntry = FileEntry(name: string, data: seq<byte>, mime: string)

  /** What the upload endpoint answers: `{success, file_id}` or `{error}` with a status. */
  datatype UploadResponse =
    | Uploaded(fileId: string)
    | Rejected(status: nat, error: string)

  /** What the download endpoint answers: the bytes as an attachment, or a plain 404 body. */
  datatype DownloadResponse =
    | Attachment(data: seq<byte>, mimetype: string, downloadName: string)
    | NotFound(status: nat, body: string)

  /** Socket.IO events the server emits. */
  datatype Event =
    | NewMessage(msg: Record)          // to every connected peer
    | LoadHistory(history: seq<Record>) // to the peer that just connected

  const FilePartName := "file"
  const ContentKey := "content"
  const BadRequest := 400
  const NotFoundStatus := 404
  const NoFilePart := "No file part"
  const NoSelectedFile := "No selected file"
  const FileNotFound := "File not found or expired"

  /* ---------------- request validation and record building ---------------- */

  /** The two checks `upload_file` makes before touching any state. */
  function Validate(parts: map<string, FilePart>): (r: Result<FilePart, UploadResponse>)
    ensures r.Ok? <==> FilePartName in parts && parts[FilePartName].filename != ""
    ensures r.Ok? ==> r.value == parts[FilePartName]
    ensures r.Err? ==> r.error.Rejected? && r.error.status == BadRequest
    ensures r.Err? ==> (r.error.error == NoFilePart <==> FilePartName !in parts)
    ensures r.Err? ==> (r.error.error == NoSelectedFile <==> FilePartName in parts)
  {
    if FilePartName !in parts then Err(Rejected(BadRequest, NoFilePart))
    else if parts[FilePartName].filename == "" then Err(Rejected(BadRequest, NoSelectedFile))
    else Ok(parts[FilePartName])
  }

  /** The registry value stored for an accepted part. */
  function Entry(part: FilePart): FileEntry
  {
    FileEntry(part.filename, part.data, part.contentType)
  }

  /** The history record announcing an accepted part. */
  function FileRecord(msgId: string, fileId: string, part: FilePart): Record
  {
    File(msgId, part.filename, fileId, |part.data|)
  }

  /* ---------------- the history and what it must satisfy ---------------- */

  /** The ids of all records in a history. */
  function RecordIds(h: seq<Record>): set<string>
  {
    if h == [] then {} else {h[0].id} + RecordIds(h[1..])
  }

  /** The file id a record announces, if it announces one. */
  function FileIdOf(r: Record): set<string>
  {
    if r.File? then {r.fileId} else {}
  }

  /** The file ids announced by a history. */
  function FileIds(h: seq<Record>): set<string>
  {
    if h == [] then {} else FileIdOf(h[0]) + FileIds(h[1..])
  }

  ghost predicate DistinctIds(h: seq<Record>)
  {
    forall i, j :: 0 <= i < j < |h| ==> h[i].id != h[j].id
  }

  /** No file is announced twice. */
  ghost predicate DistinctFileIds(h: seq<Record>)
  {
    forall i, j :: 0 <= i < j < |h| && h[i].File? && h[j].File? ==> h[i].fileId != h[j].fileId
  }

  /** A file announcement names an entry of the registry, with its name and byte count. */
  ghost predicate Describes(files: map<string, FileEntry>, r: Record)
  {
    r.File? ==> r.fileId in files && files[r.fileId].name == r.filename && |files[r.fileId].data| == r.size
  }

  /**
   * What the handlers keep true of the two stores: ids are unique, the registry
   * holds exactly the announced files, and every announcement matches its entry.
   */
  ghost predicate Consistent(h: seq<Record>, files: map<string, FileEntry>)
  {
    && DistinctIds(h)
    && DistinctFileIds(h)
    && files.Keys == FileIds(h)
    && forall i :: 0 <= i < |h| ==> Describes(files, h[i])
  }

  /** The history is either unchanged or extended by exactly one record at the end. */
  ghost predicate AppendOnly(before: seq<Record>, after: seq<Record>)
  {
    after == before || (|after| == |before| + 1 && after[..|before|] == before)
  }

  lemma {:induction false} IdsOfMember(h: seq<Record>, i: nat)
    requires i < |h|
    ensures h[i].id in RecordIds(h)
    ensures h[i].File? ==> h[i].fileId in FileIds(h)
  {
    if i > 0 {
      IdsOfMember(h[1..], i - 1);
    }
  }

  lemma {:induction false} IdsOfAppend(h: seq<Record>, r: Record)
    ensures RecordIds(h + [r]) == RecordIds(h) + {r.id}
    ensures FileIds(h + [r]) == FileIds(h) + FileIdOf(r)
  {
    if h == [] {
      assert [] + [r] == [r];
    } else {
      assert (h + [r])[1..] == h[1..] + [r];
      IdsOfAppend(h[1..], r);
    }
  }

  /** Storing an accepted upload under a fresh file id and announcing it keeps the stores consistent. */
  lemma UploadKeepsConsistent(h: seq<Record>, files: map<string, FileEntry>, part: FilePart, fileId: string, msgId: string)
    requires Consistent(h, files)
    requires fileId !in files && msgId !in RecordIds(h)
    ensures Consistent(h + [FileRecord(msgId, fileId, part)], files[fileId := Entry(part)])
  {
    var r := FileRecord(msgId, fileId, part);
    var h', files' := h + [r], files[fileId := Entry(part)];
    IdsOfAppend(h, r);
    forall i | 0 <= i < |h|
      ensures h[i].id != msgId
      ensures h[i].File? ==> h[i].fileId != fileId && Describes(files', h[i])
    {
      IdsOfMember(h, i);
    }
    assert forall i :: 0 <= i < |h| ==> h'[i] == h[i];
  }

  /** Appending a text record with a fresh id keeps the stores consistent. */
  lemma MessageKeepsConsistent(h: seq<Record>, files: map<string, FileEntry>, msgId: string, content: string)
    requires Consistent(h, files)
    requires msgId !in RecordIds(h)
    ensures Consistent(h + [Text(msgId, content)], files)
  {
    var h' := h + [Text(msgId, content)];
    IdsOfAppend(h, Text(msgId, content));
    forall i | 0 <= i < |h| ensures h[i].id != msgId {
      IdsOfMember(h, i);
    }
    assert forall i :: 0 <= i < |h| ==> h'[i] == h[i];
  }

  /** In a history with unique ids every record occurs exactly once. */
  lemma {:induction false} EachRecordOnce(h: seq<Record>)
    requires DistinctIds(h)
    ensures forall r :: r in h ==> multiset(h)[r] == 1
  {
    if h != [] {
      var t := h[1..];
      assert DistinctIds(t) by {
        forall i, j | 0 <= i < j < |t| ensures t[i].id != t[j].id {
          assert t[i] == h[i + 1] && t[j] == h[j + 1];
        }
      }
      EachRecordOnce(t);
      assert h == [h[0]] + t;
      assert multiset(h) == multiset{h[0]} + multiset(t);
      assert h[0] !in t by {
        forall k | 0 <= k < |t| ensures t[k] != h[0] {
          assert t[k] == h[k + 1];
        }
      }
    }
  }

  /**
   * A peer that connected when the history was `snapshot` receives it in
   * `load_history` and then, as `new_message` events, the rest of the
   * broadcast stream. Together these are the whole stream, each record once.
   */
  lemma JoinerSeesEachRecordOnce(snapshot: seq<Record>, broadcasts: seq<Record>)
    requires snapshot <= broadcasts
    requires DistinctIds(broadcasts)
    ensures snapshot + broadcasts[|snapshot|..] == broadcasts
    ensures forall r :: r in broadcasts ==> multiset(snapshot)[r] + multiset(broadcasts[|snapshot|..])[r] == 1
    ensures forall r :: r in snapshot ==> r !in broadcasts[|snapshot|..]
  {
    var later := broadcasts[|snapshot|..];
    assert snapshot + later == broadcasts;
    EachRecordOnce(broadcasts);
    assert multiset(broadcasts) == multiset(snapshot) + multiset(later);
    forall r | r in snapshot ensures r !in later {
      assert r in broadcasts;
    }
  }

  /* ---------------- the session store ---------------- */

  /** HISTORY and FILES, with the ghost log of what was handed to the `new_message` broadcast. */
  class Session {
    var history: seq<Record>
    var files: map<string, FileEntry>
    ghost var broadcasts: seq<Record>

    /** The stores are consistent, and every record was broadcast once, in history order. */
    ghost predicate Valid()
      reads this
    {
      Consistent(history, files) && broadcasts == history
    }

    constructor ()
      ensures Valid()
      ensures history == [] && files == map[] && broadcasts == []
    {
      history := [];
      files := map[];
      broadcasts := [];
    }

    /** POST /upload */
    method UploadFile(parts: map<string, FilePart>, fileId: string, msgId: string) returns (resp: UploadResponse)
      requires Valid()
      requires fileId !in files && msgId !in RecordIds(history)
      modifies this
      ensures Valid()
      ensures AppendOnly(old(history), history)
      ensures Validate(parts).Err? ==>
        && resp == Validate(parts).error
        && history == old(history) && files == old(files) && broadcasts == old(broadcasts)
      ensures Validate(parts).Ok? ==>
        var part := parts[FilePartName];
        && resp == Uploaded(fileId)
        && files == old(files)[fileId := Entry(part)]
        && history == old(history) + [FileRecord(msgId, fileId, part)]
        && broadcasts == old(broadcasts) + [FileRecord(msgId, fileId, part)]
      ensures forall id :: id in old(files) ==> id in files && files[id] == old(files)[id]
    {
      var checked := Validate(parts);
      if checked.Err? {
        return checked.error;
      }
      var part := checked.value;
      UploadKeepsConsistent(history, files, part, fileId, msgId);
      files := files[fileId := Entry(part)];
      var msg := FileRecord(msgId, fileId, part);
      history := history + [msg];
      broadcasts := broadcasts + [msg];
      resp := Uploaded(fileId);
    }

    /** GET /download/<file_id>; changes nothing (no modifies clause). */
    method DownloadFile(fileId: string) returns (resp: DownloadResponse)
      ensures resp.Attachment? <==> fileId in files
      ensures fileId in files ==>
        resp == Attachment(files[fileId].data, files[fileId].mime, files[fileId].name)
      ensures fileId !in files ==> resp == NotFound(NotFoundStatus, FileNotFound)
    {
      if fileId !in files {
        return NotFound(NotFoundStatus, FileNotFound);
      }
      var info := files[fileId];
      resp := Attachment(info.data, info.mime, info.name);
    }

    /** Socket.IO `connect`: the whole history, to the new peer only; changes nothing. */
    method HandleConnect() returns (ev: Event)
      ensures ev == LoadHistory(history)
    {
      ev := LoadHistory(history);
    }

    /**
     * Socket.IO `send_message`. The content is taken as sent, without any check;
     * a payload without a `content` key fails before anything is appended.
     */
    method HandleMessage(data: map<string, string>, msgId: string) returns (sent: Option<Event>)
      requires Valid()
      requires msgId !in RecordIds(history)
      modifies this
      ensures Valid()
      ensures AppendOnly(old(history), history)
      ensures files == old(files)
      ensures ContentKey !in data ==>
        sent == None && history == old(history) && broadcasts == old(broadcasts)
      ensures ContentKey in data ==>
        && sent == Some(NewMessage(Text(msgId, data[ContentKey])))
        && history == old(history) + [Text(msgId, data[ContentKey])]
        && broadcasts == old(broadcasts) + [Text(msgId, data[ContentKey])]
    {
      if ContentKey !in data {
        return None;
      }
      var msg := Text(msgId, data[ContentKey]);
      MessageKeepsConsistent(history, files, msgId, data[ContentKey]);
      history := history + [msg];
      broadcasts := broadcasts + [msg];
      sent := Some(NewMessage(msg));
    }
  }

  /* ---------------- what a client of the store can rely on ---------------- */

  /** Downloading the id an upload returned gives back the bytes, type and name that were uploaded. */
  method UploadThenDownload(s: Session, parts: map<string, FilePart>, fileId: string, msgId: string)
    returns (up: UploadResponse, down: DownloadResponse)
    requires s.Valid()
    requires fileId !in s.files && msgId !in RecordIds(s.history)
    requires Validate(parts).Ok?
    modifies s
    ensures s.Valid()
    ensures up == Uploaded(fileId)
    ensures down == Attachment(parts[FilePartName].data, parts[FilePartName].contentType, parts[FilePartName].filename)
  {
    up := s.UploadFile(parts, fileId, msgId);
    down := s.DownloadFile(up.fileId);
  }

  /** Upload of a 1024-byte "photo.png" of type image/png, then its download. */
  method PhotoScenario() returns (up: UploadResponse, history: seq<Record>, ghost broadcast: seq<Record>, down: DownloadResponse)
    ensures up == Uploaded("f1")
    ensures history == [File("m1", "photo.png", "f1", 1024)]
    ensures broadcast == [File("m1", "photo.png", "f1", 1024)]
    ensures down.Attachment? && |down.data| == 1024
    ensures down.mimetype == "image/png" && down.downloadName == "photo.png"
  {
    var s := new Session();
    var photo := seq(1024, _ => 0 as byte);
    up := s.UploadFile(map[FilePartName := FilePart("photo.png", photo, "image/png")], "f1", "m1");
    history := s.history;
    broadcast := s.broadcasts;
    down := s.DownloadFile("f1");
  }

  /** Peer A joins an empty session and says "hi"; peer B joins afterwards. */
  method ChatScenario() returns (joinA: Event, sent: Option<Event>, joinB: Event)
    ensures joinA == LoadHistory([])
    ensures sent == Some(NewMessage(Text("m1", "hi")))
    ensures joinB == LoadHistory([Text("m1", "hi")])
  {
    var s := new Session();
    joinA := s.HandleConnect();
    sent := s.HandleMessage(map[ContentKey := "hi"], "m1");
    joinB := s.HandleConnect();
  }

  /**
   * A peer connects, then an upload and a text message are handled. What the
   * peer receives, its `load_history` followed by the later `new_message`
   * payloads, is the whole broadcast stream with each record exactly once.
   */
  method JoinThenPublish(s: Session, parts: map<string, FilePart>, fileId: string, uploadId: string,
                         data: map<string, string>, messageId: string)
    returns (joined: Event, ghost later: seq<Record>)
    requires s.Valid()
    requires fileId !in s.files && uploadId !in RecordIds(s.history)
    requires messageId !in RecordIds(s.history) && messageId != uploadId
    modifies s
    ensures s.Valid()
    ensures joined == LoadHistory(old(s.history))
    ensures later ==
      (if Validate(parts).Ok? then [FileRecord(uploadId, fileId, parts[FilePartName])] else []) +
      (if ContentKey in data then [Text(messageId, data[ContentKey])] else [])
    ensures joined.history + later == s.broadcasts
    ensures forall r :: r in s.broadcasts ==> multiset(joined.history)[r] + multiset(later)[r] == 1
    ensures forall r :: r in joined.history ==> r !in later
  {
    joined := s.HandleConnect();
    var before := s.history;
    var up := s.UploadFile(parts, fileId, uploadId);
    if Validate(parts).Ok? {
      IdsOfAppend(before, FileRecord(uploadId, fileId, parts[FilePartName]));
    }
    var sent := s.HandleMessage(data, messageId);
    JoinerSeesEachRecordOnce(joined.history, s.broadcasts);
    later := s.broadcasts[|joined.history|..];
  }

  /**
   * Every file announced in the history can be downloaded, and the download
   * carries the announced filename and exactly the announced number of bytes.
   */
  method DownloadAnnounced(s: Session, i: nat) returns (resp: DownloadResponse)
    requires s.Valid()
    requires i < |s.history| && s.history[i].File?
    ensures resp.Attachment?
    ensures resp.downloadName == s.history[i].filename
    ensures |resp.data| == s.history[i].size
  {
    resp := s.DownloadFile(s.history[i].fileId);
  }
}
