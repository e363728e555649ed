/** Saving a JSON document by writing a temporary file and renaming it over the target, with any system call raising
    and the process dying at any point. */
module AtomicFile {
  import opened Basics
  import opened Json

  /** What a file holds: a whole document, text that is not one, or bytes that are not UTF-8.  Part of a document can be
      any of the three. */
  datatype Content = Document(json: Json) | NotJson | Undecodable

  /** What becomes of one system call.  A call that raises, or during which the process dies, may have had its effect or
      not: an interrupt can arrive after the system has done its work.  A write may have left any part of the document. */
  datatype Outcome = Done | Raises(effect: bool) | Killed(effect: bool)
  {
    predicate TookEffect() {
      Done? || effect
    }
  }

  datatype Call = Mkstemp | Write | Close | Chmod | Replace | CleanupClose | Unlink

  datatype Ending = Saved | Raised | Died

  /** The calls up to the rename went through, and the rename took effect. */
  predicate SaveTakesEffect(call: Call -> Outcome) {
    call(Mkstemp).Done? && call(Write).Done? && call(Close).Done? && call(Replace).TookEffect()
  }

  predicate WriteTakesEffect(call: Call -> Outcome) {
    call(Mkstemp).Done? && call(Write).Done? && call(Close).Done? && call(Chmod).Done? && call(Replace).TookEffect()
  }

  lemma EffectIs(call: Call -> Outcome)
    ensures SaveTakesEffect(call) <==>
            && call(Mkstemp) == Done && call(Write) == Done && call(Close) == Done
            && (call(Replace) == Done || call(Replace) == Raises(true) || call(Replace) == Killed(true))
    ensures WriteTakesEffect(call) <==> SaveTakesEffect(call) && call(Chmod) == Done
  {
  }

  class Disk {
    var files: map<string, Content>

    constructor (initial: map<string, Content>)
      ensures files == initial
    {
      files := initial;
    }

    /** The temporary file in place of the target */
    method Rename(target: string, tmp: string)
      requires tmp in files
      modifies this
      ensures files == (old(files) - {tmp})[target := old(files)[tmp]]
    {
      files := (files - {tmp})[target := files[tmp]];
    }

    /** `TaskManager.save` and `StateStore.save`: the handler closes the descriptor again if it is not known to be
        closed, and removes the temporary file if it is there. */
    method Save(target: string, tmp: string, doc: Json, call: Call -> Outcome) returns (e: Ending)
      requires tmp != target && tmp !in files
      modifies this
      ensures e.Saved? <==> call(Mkstemp).Done? && call(Write).Done? && call(Close).Done? && call(Replace).Done?
      ensures files - {tmp} == if SaveTakesEffect(call) then old(files)[target := Document(doc)] else old(files)
      ensures SaveTakesEffect(call) ==> tmp !in files
      ensures e.Raised? && tmp in files ==>
                call(Mkstemp) == Raises(true) || call(CleanupClose).Raises? || call(Unlink) == Raises(false)
      ensures e.Died? ==> exists c :: call(c).Killed?
    {
      if call(Mkstemp).TookEffect() {
        files := files[tmp := NotJson];
      }
      match call(Mkstemp) {
        case Raises(_) => return Raised;
        case Killed(_) => return Died;
        case Done =>
      }
      var closed := false;
      var failed := WriteDocument(tmp, doc, call);
      if failed && call(Write).Killed? {
        return Died;
      }
      if !failed {
        match call(Close) {
          case Killed(_) => return Died;
          case Raises(_) => failed := true;
          case Done => closed := true;
        }
      }
      if !failed {
        if call(Replace).TookEffect() {
          Rename(target, tmp);
        }
        match call(Replace) {
          case Killed(_) => return Died;
          case Raises(_) => failed := true;
          case Done => return Saved;
        }
      }
      if !closed {
        match call(CleanupClose) {
          case Killed(_) => return Died;
          case Raises(_) => return Raised;
          case Done =>
        }
      }
      if tmp in files {
        if call(Unlink).TookEffect() {
          files := files - {tmp};
        }
        if call(Unlink).Killed? {
          return Died;
        }
      }
      return Raised;
    }

    /** The write into the temporary file: if it fails, the file may hold anything. */
    method WriteDocument(tmp: string, doc: Json, call: Call -> Outcome) returns (failed: bool)
      requires tmp in files
      modifies this
      ensures failed <==> !call(Write).Done?
      ensures tmp in files && files - {tmp} == old(files) - {tmp}
      ensures !failed ==> files[tmp] == Document(doc)
    {
      var content: Content := *;
      failed := !call(Write).Done?;
      files := files[tmp := if failed then content else Document(doc)];
    }

    /** `_atomic_write_json`: the context manager closes the file in any case, the mode is set before the rename, and
        a failing removal of the temporary file is ignored. */
    method WriteJson(target: string, tmp: string, doc: Json, call: Call -> Outcome) returns (e: Ending)
      requires tmp != target && tmp !in files
      modifies this
      ensures e.Saved? <==>
              call(Mkstemp).Done? && call(Write).Done? && call(Close).Done? && call(Chmod).Done? && call(Replace).Done?
      ensures files - {tmp} == if WriteTakesEffect(call) then old(files)[target := Document(doc)] else old(files)
      ensures WriteTakesEffect(call) ==> tmp !in files
      ensures e.Raised? && tmp in files ==> call(Mkstemp) == Raises(true) || call(Unlink) == Raises(false)
      ensures e.Died? ==> exists c :: call(c).Killed?
    {
      if call(Mkstemp).TookEffect() {
        files := files[tmp := NotJson];
      }
      match call(Mkstemp) {
        case Raises(_) => return Raised;
        case Killed(_) => return Died;
        case Done =>
      }
      var failed := WriteDocument(tmp, doc, call);
      if failed && call(Write).Killed? {
        return Died;
      }
      match call(Close) {
        case Killed(_) => return Died;
        case Raises(_) => failed := true;
        case Done =>
      }
      if !failed {
        match call(Chmod) {
          case Killed(_) => return Died;
          case Raises(_) => failed := true;
          case Done =>
        }
      }
      if !failed {
        if call(Replace).TookEffect() {
          Rename(target, tmp);
        }
        match call(Replace) {
          case Killed(_) => return Died;
          case Raises(_) => failed := true;
          case Done => return Saved;
        }
      }
      if tmp in files && call(Unlink).TookEffect() {
        files := files - {tmp};
      }
      if call(Unlink).Killed? {
        return Died;
      }
      return Raised;
    }
  }
}
