/** The `DocumentUpload` component: files staged locally, identifiers the
    server has confirmed, and the `loading` flag of the spinner. The same
    component is inlined in the top-level App file. */
module Documents {
  import opened Types

  class DocumentUpload {
    var stagedFiles: seq<File>
    /** Confirmed identifiers; in the source this list is the parent's state,
        passed down with its setter. */
    var uploadedDocs: seq<string>
    var loading: bool

    constructor (uploadedDocs: seq<string>)
      ensures stagedFiles == [] && this.uploadedDocs == uploadedDocs && !loading
    {
      stagedFiles := [];
      this.uploadedDocs := uploadedDocs;
      loading := false;
    }

    /** `addFiles`: each file is appended to the staged list, in order. */
    method AddFiles(files: seq<File>)
      modifies this`stagedFiles
      ensures stagedFiles == old(stagedFiles) + files
    {
      for i := 0 to |files|
        invariant stagedFiles == old(stagedFiles) + files[..i]
      {
        stagedFiles := stagedFiles + [files[i]];
      }
    }

    /** The effect on `stagedFiles`: an empty list starts nothing; otherwise
        the whole staged list is sent as one batch and `loading` is raised
        before the request is awaited. */
    method StagedFilesChanged() returns (batch: Option<seq<File>>)
      modifies this`loading
      ensures batch.None? <==> stagedFiles == []
      ensures batch.Some? ==> batch.value == stagedFiles && loading
      ensures batch.None? ==> loading == old(loading)
    {
      if |stagedFiles| == 0 {
        return None;
      }
      loading := true;
      batch := Some(stagedFiles);
    }

    /** The end of `uploadToServer`. Success is decided by parsing the body,
        not by the `ok` flag: any parsed reply appends its documents and
        empties the staged list; a thrown call or parse changes neither list.
        `loading` drops in every case. */
    method UploadReply(reply: Reply<seq<string>>)
      modifies this`stagedFiles, this`uploadedDocs, this`loading
      ensures !loading
      ensures reply.Answered? ==> uploadedDocs == old(uploadedDocs) + reply.body && stagedFiles == []
      ensures reply.Threw? ==> uploadedDocs == old(uploadedDocs) && stagedFiles == old(stagedFiles)
    {
      match reply {
        case Threw =>
        case Answered(_, documents) =>
          uploadedDocs := uploadedDocs + documents;
          stagedFiles := [];
      }
      loading := false;
    }

    /** `clearDocuments`: only an `ok` response empties both lists; a not-ok
        response or a rejected `fetch` leaves them as they were. Reading the
        body comes after the lists are emptied, so an `ok` response whose
        body fails to read is `Answered(true, ())`. */
    method ClearDocuments(reply: Reply<()>)
      modifies this`stagedFiles, this`uploadedDocs
      ensures reply.Answered? && reply.ok ==> uploadedDocs == [] && stagedFiles == []
      ensures !(reply.Answered? && reply.ok) ==>
                uploadedDocs == old(uploadedDocs) && stagedFiles == old(stagedFiles)
    {
      if reply.Answered? && reply.ok {
        uploadedDocs := [];
        stagedFiles := [];
      }
    }

    /** The parent's `setUploadedDocs` with a new list. */
    method SetUploadedDocs(documents: seq<string>)
      modifies this`uploadedDocs
      ensures uploadedDocs == documents
    {
      uploadedDocs := documents;
    }
  }

  /** Staging two files and a successful upload of them leaves exactly the
      returned identifiers confirmed and nothing staged. */
  method UploadScenario(a: File, b: File)
  {
    var d := new DocumentUpload([]);
    d.AddFiles([a, b]);
    assert d.stagedFiles == [] + [a, b] == [a, b];
    var batch := d.StagedFilesChanged();
    assert batch == Some([a, b]) && d.loading;
    d.UploadReply(Answered(true, ["a.pdf", "b.pdf"]));
    assert d.uploadedDocs == ["a.pdf", "b.pdf"] && d.stagedFiles == [] && !d.loading;
    batch := d.StagedFilesChanged();
    assert batch == None;
  }
}
