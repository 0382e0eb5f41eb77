/** The file adapter's map of entries as it is changed in place by the sections that hold the mutex
    (file/client.go), tied to the steps of FileModel.  Entries are objects: what an entry is, and not
    what it says, decides whether a failing decode may remove it. */
module FileAdapterMap {
  import opened FileModel

  class TailInfo {
    const path: string
    const inode: nat
    ghost const id: nat
    var parquetDecoding: bool
    var parquetSize: int
    var parquetModTime: int

    constructor (path: string, inode: nat, ghost id: nat)
      ensures this.path == path && this.inode == inode && this.id == id
      ensures parquetDecoding && parquetSize == 0 && parquetModTime == 0
    {
      this.path, this.inode, this.id := path, inode, id;
      parquetDecoding, parquetSize, parquetModTime := true, 0, 0;
    }

    /** Whether the scan leaves the entry alone; a file that is gone has no stat. */
    predicate Keeps(stats: map<string, Stat>)
      reads this
    {
      && path in stats
      && (parquetDecoding
          || (Fits(inode, stats[path]) && parquetSize == stats[path].size && parquetModTime == stats[path].mtime))
    }
  }

  /** An entry whose decode has not done anything yet. */
  predicate Fresh(info: TailInfo, inode: nat)
    reads info
  {
    info.parquetDecoding && info.inode == inode && info.parquetSize == 0 && info.parquetModTime == 0
  }

  /** The paths with an entry once the first i matches have been gone through. */
  ghost function PathsAfter(have: set<string>, matches: seq<string>, i: nat, stats: map<string, Stat>): set<string>
    requires i <= |matches|
  {
    if i == 0 then have
    else PathsAfter(have, matches, i - 1, stats) + if matches[i - 1] in stats then {matches[i - 1]} else {}
  }

  lemma NextPath(have: set<string>, matches: seq<string>, i: nat, stats: map<string, Stat>, paths: set<string>)
    requires i < |matches| && paths == PathsAfter(have, matches, i, stats)
    ensures PathsAfter(have, matches, i + 1, stats) == if matches[i] !in paths && matches[i] in stats then paths + {matches[i]} else paths
  {
  }

  lemma {:induction false} PathsAfterAre(have: set<string>, matches: seq<string>, i: nat, stats: map<string, Stat>, p: string)
    requires i <= |matches|
    ensures p in PathsAfter(have, matches, i, stats) <==> p in have || (p in stats && exists j :: 0 <= j < i && matches[j] == p)
  {
    if i > 0 { PathsAfterAre(have, matches, i - 1, stats, p); }
  }

  class FileAdapter {
    var tailFiles: map<string, TailInfo>
    var parquetWg: int
    ghost var made: seq<TailInfo>

    /** Entries stand under their own path, and are told apart by the order in which they were made. */
    ghost predicate Valid()
      reads this
    {
      && (forall i :: 0 <= i < |made| ==> made[i].id == i)
      && (forall p :: p in tailFiles ==> Made(tailFiles[p]) && tailFiles[p].path == p)
    }

    ghost predicate Made(info: TailInfo)
      reads this
    {
      info.id < |made| && made[info.id] == info
    }

    /** The map as the step system sees it. */
    ghost function Tail(): map<string, nat>
      reads this
      requires Valid()
    {
      map p | p in tailFiles :: tailFiles[p].id
    }

    constructor ()
      ensures Valid() && tailFiles == map[] && parquetWg == 0
    {
      tailFiles, parquetWg, made := map[], 0, [];
    }

    /** file/client.go:197-338 for Parquet entries, walking the map in any order while the disk and the
        decodes stand still: removed are exactly the entries whose file is gone and those whose decode is
        over and whose file was replaced or rewritten. */
    method ScanEntries(stats: map<string, Stat>)
      requires Valid()
      modifies this`tailFiles
      ensures Valid()
      ensures tailFiles == map p | p in old(tailFiles) && old(tailFiles)[p].Keeps(stats) :: old(tailFiles)[p]
      ensures forall p :: p in old(tailFiles) ==>
        var info := old(tailFiles)[p];
        (p !in tailFiles <==>
           || p !in stats
           || (!info.parquetDecoding
               && ((info.inode != 0 && stats[p].inode != 0 && info.inode != stats[p].inode)
                   || info.parquetSize != stats[p].size || info.parquetModTime != stats[p].mtime)))
    {
      var paths := tailFiles.Keys;
      while paths != {}
        invariant paths <= tailFiles.Keys <= old(tailFiles).Keys
        invariant forall p :: p in tailFiles ==> tailFiles[p] == old(tailFiles)[p]
        invariant forall p :: p in old(tailFiles) && p !in paths ==> (p in tailFiles <==> old(tailFiles)[p].Keeps(stats))
        decreases paths
      {
        var path :| path in paths;
        var info := tailFiles[path];
        paths := paths - {path};
        if path in stats {
          if info.parquetDecoding {
            continue;
          }
          var stat := stats[path];
          var rotated := stat.inode != 0 && info.inode != 0 && stat.inode != info.inode;
          var rewrittenInPlace := !rotated && (stat.size != info.parquetSize || stat.mtime != info.parquetModTime);
          if rotated {
            tailFiles := tailFiles - {path};
          } else if rewrittenInPlace {
            tailFiles := tailFiles - {path};
          }
        } else {
          tailFiles := tailFiles - {path};
        }
      }
    }

    /** Nothing lost since the map was `before`; what is new was made later than entry n. */
    ghost predicate Grown(before: map<string, TailInfo>, n: nat, stats: map<string, Stat>)
      reads this, tailFiles.Values
    {
      && (forall p :: p in before ==> p in tailFiles && tailFiles[p] == before[p])
      && (forall p :: p in tailFiles && p !in before ==>
            tailFiles[p].id >= n && p in stats && Fresh(tailFiles[p], stats[p].inode))
    }

    /** file/client.go:340-381: up to the first match at which the context is found cancelled, every path
        without an entry whose file can be looked at gets one, and one decode more is waited for. */
    method SpawnMatches(matches: seq<string>, stats: map<string, Stat>, cancelledAt: nat)
      requires Valid() && cancelledAt <= |matches|
      modifies this
      ensures Valid() && tailFiles.Keys == PathsAfter(old(tailFiles).Keys, matches, cancelledAt, stats)
      ensures Grown(old(tailFiles), |old(made)|, stats)
      ensures parquetWg - old(parquetWg) == |made| - |old(made)|
      ensures forall p :: p in tailFiles && p !in old(tailFiles) ==>
        p in stats && tailFiles[p].inode == stats[p].inode && tailFiles[p].parquetDecoding
    {
      for i := 0 to cancelledAt
        invariant Valid() && tailFiles.Keys == PathsAfter(old(tailFiles).Keys, matches, i, stats)
        invariant Grown(old(tailFiles), |old(made)|, stats) && |made| >= |old(made)|
        invariant parquetWg - old(parquetWg) == |made| - |old(made)|
      {
        NextPath(old(tailFiles).Keys, matches, i, stats, tailFiles.Keys);
        if matches[i] !in tailFiles && matches[i] in stats {
          Spawn(matches[i], stats[matches[i]].inode);
        }
      }
    }

    method Spawn(path: string, inode: nat)
      requires Valid() && path !in tailFiles
      modifies this
      ensures Valid() && |made| == |old(made)| + 1 && fresh(made[|old(made)|]) && Fresh(made[|old(made)|], inode)
      ensures tailFiles == old(tailFiles)[path := made[|old(made)|]] && parquetWg == old(parquetWg) + 1
    {
      var info := new TailInfo(path, inode, |made|);
      made := made + [info];
      tailFiles := tailFiles[path := info];
      parquetWg := parquetWg + 1;
    }

    /** file/client.go:789-795: only the very entry is removed, not another one under its path. */
    method DropTailEntryIfMatch(path: string, info: TailInfo)
      requires Valid() && Made(info)
      modifies this`tailFiles
      ensures Valid() && Tail() == Dropped(old(Tail()), path, info.id)
      ensures forall p :: p in old(tailFiles) && old(tailFiles)[p] != info ==> p in tailFiles && tailFiles[p] == old(tailFiles)[p]
    {
      if path in tailFiles && tailFiles[path] == info {
        tailFiles := tailFiles - {path};
      }
    }
  }

  /** Scanning one path in the step system keeps its entry exactly if the scan above does. */
  lemma ScanOneKeeps(s: State, p: string, ok: bool, info: TailInfo)
    requires PollEnabled(s, ScanOne(p, ok)) && ok == (p in s.disk)
    requires var i := s.infos[s.tail[p]];
      info.path == p && info.inode == i.inode && info.parquetDecoding == i.decoding
      && info.parquetSize == i.size && info.parquetModTime == i.mtime
    ensures PollApply(s, ScanOne(p, ok)).tail == if info.Keeps(s.disk) then s.tail else s.tail - {p}
  {
  }
}
