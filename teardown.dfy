/**
  `del` from tinit/util.c, the callback that tears the initramfs down when
  it is handed to `nftw("/", del, 100, FTW_DEPTH)` (tinit/main.c:47).

  `del` looks only at the entry's type: a regular file is unlinked, a
  directory reported after its contents is removed, anything else is left
  alone. The outcome of `unlink`/`rmdir` is ignored and the callback always
  returns 0, so the walk never stops early: the teardown is best effort.
*/
module Teardown {

  /** The type flag `nftw` passes to its callback (<ftw.h>). */
  datatype FtwType =
    | FtwF    // regular file
    | FtwD    // directory, reported before its contents (not with FTW_DEPTH)
    | FtwDnr  // directory that cannot be read
    | FtwDp   // directory, reported after its contents (FTW_DEPTH)
    | FtwNs   // stat failed
    | FtwSl   // symbolic link (with FTW_PHYS)
    | FtwSln  // symbolic link to nothing

  /** The system call the callback makes for one entry. */
  datatype Action = Unlink(path: string) | Rmdir(path: string) | Ignore

  /** The callback's effect and return value for one entry. */
  datatype Reply = Reply(action: Action, ret: int)

  /** `del(path, sb, type, ftw)`: the `stat` buffer and the FTW position
      are not used. */
  function Del(path: string, kind: FtwType): (r: Reply)
    ensures r.ret == 0
    ensures r.action == Unlink(path) <==> kind == FtwF
    ensures r.action == Rmdir(path) <==> kind == FtwDp
    ensures r.action == Ignore <==> kind != FtwF && kind != FtwDp
  {
    match kind
    case FtwF => Reply(Unlink(path), 0)
    case FtwDp => Reply(Rmdir(path), 0)
    case _ => Reply(Ignore, 0)
  }

  /** One entry as `nftw` reports it. */
  datatype Entry = Entry(path: string, kind: FtwType)

  /** The calls a walk made and the value `nftw` returns. */
  datatype WalkResult = WalkResult(actions: seq<Action>, ret: int)

  /** How `nftw` drives its callback over the entries it reports, in the
      order it reports them: it stops at the first non-zero return value
      and returns that value, or returns 0 after the last entry. */
  function Walk(entries: seq<Entry>, callback: (string, FtwType) -> Reply): (r: WalkResult)
    ensures |r.actions| <= |entries|
    ensures forall i :: 0 <= i < |r.actions| ==>
      r.actions[i] == callback(entries[i].path, entries[i].kind).action
    ensures forall i :: 0 <= i < |r.actions| && (r.ret == 0 || i < |r.actions| - 1) ==>
      callback(entries[i].path, entries[i].kind).ret == 0
    ensures r.ret == 0 ==> |r.actions| == |entries|
    ensures r.ret != 0 ==>
      0 < |r.actions| && r.ret == callback(entries[|r.actions| - 1].path, entries[|r.actions| - 1].kind).ret
  {
    if entries == [] then
      WalkResult([], 0)
    else
      var reply := callback(entries[0].path, entries[0].kind);
      if reply.ret != 0 then
        WalkResult([reply.action], reply.ret)
      else
        var rest := Walk(entries[1..], callback);
        WalkResult([reply.action] + rest.actions, rest.ret)
  }

  /** With `del` as the callback the walk reaches every entry, makes
      exactly `del`'s call for each, in order, and `nftw` returns 0. */
  lemma TeardownVisitsEverything(entries: seq<Entry>)
    ensures Walk(entries, Del).ret == 0
    ensures |Walk(entries, Del).actions| == |entries|
    ensures forall i :: 0 <= i < |entries| ==>
      Walk(entries, Del).actions[i] == Del(entries[i].path, entries[i].kind).action
  {
  }

  /** The teardown unlinks exactly the regular files it is shown and
      removes exactly the directories reported after their contents;
      nothing else is touched. */
  lemma TeardownRemoves(entries: seq<Entry>)
    ensures forall p :: Unlink(p) in Walk(entries, Del).actions <==> Entry(p, FtwF) in entries
    ensures forall p :: Rmdir(p) in Walk(entries, Del).actions <==> Entry(p, FtwDp) in entries
  {
  }
}
