/**
 * The session store: the server's table from session ids to open file
 * handles. Each operation is atomic (the mutex that makes it so is not
 * modelled).
 */
module Sessions {
  import opened Os
  import Uuid

  type SessionID = string

  class Session {
    var files: map<SessionID, File>
    /** The id most recently handed out by Add. */
    var counter: SessionID

    /** An empty store, as the server creates it at start-up. */
    constructor ()
      ensures files == map[] && counter == ""
    {
      files := map[];
      counter := "";
    }

    /** The handle registered under `id`, as a frame: empty when `id` is unknown. */
    function HandleOf(id: SessionID): set<File>
      reads this
    {
      if id in files then {files[id]} else {}
    }

    /** Register `file` under a fresh id and return that id. */
    method Add(file: File) returns (id: SessionID)
      modifies this
      ensures id != "" && id !in old(files)
      ensures files == old(files)[id := file]
      ensures |files| == |old(files)| + 1
      ensures counter == id
    {
      Uuid.FreshIdExists(files.Keys);
      var uuid :| uuid != "" && uuid !in files;
      counter := uuid;
      files := files[counter := file];
      id := counter;
    }

    /** Look `id` up; null when it is unknown. */
    method Get(id: SessionID) returns (f: File?)
      ensures id in files ==> f == files[id]
      ensures id !in files ==> f == null
    {
      f := if id in files then files[id] else null;
    }

    /** Close and forget the handle under `id`; an unknown id is left alone. */
    method Delete(id: SessionID)
      modifies this, HandleOf(id)
      ensures files == old(files) - {id}
      ensures id in old(files) ==> |files| == |old(files)| - 1 && old(files)[id].closed
      ensures id !in old(files) ==> files == old(files)
      ensures counter == old(counter)
    {
      if id in files {
        var file := files[id];
        var closeErr := file.Close(); // the error of a second close is dropped
        files := files - {id};
      }
    }

    /** The number of live sessions. */
    method Len() returns (n: int)
      ensures n == |files.Keys|
    {
      n := |files|;
    }
  }

  /** Deleting an id a second time changes nothing: two deletes leave the store as one does. */
  method DeleteIsIdempotent(s: Session, id: SessionID)
    modifies s, s.HandleOf(id)
    ensures s.files == old(s.files) - {id} && s.counter == old(s.counter)
  {
    s.Delete(id);
    ghost var once := s.files;
    s.Delete(id);
    assert s.files == once;
  }
}
