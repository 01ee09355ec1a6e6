/** build_path of util.c: joining a directory and a file name. */
module Paths {
  import opened LsTypes

  /** build_path's two outcomes: the joined path, or NULL with errno set to
      ENAMETOOLONG.  (The malloc failure is not modelled.) */
  datatype PathResult = Built(path: Path) | TooLong

  /** The joined path: a '/' is inserted only when dir is non-empty and does
      not already end in one. */
  function JoinPath(dir: Path, file: Name): (r: PathResult)
    ensures r.TooLong? <==> |dir| + |file| + 2 > PATH_MAX
    ensures r.Built? ==> |dir| + |file| <= |r.path| <= |dir| + |file| + 1 && |r.path| + 1 <= PATH_MAX
    ensures r.Built? ==> r.path[..|dir|] == dir && r.path[|r.path| - |file|..] == file
  {
    if |dir| + 1 + |file| + 1 > PATH_MAX then TooLong
    else if |dir| > 0 && dir[|dir| - 1] != SLASH then Built(dir + [SLASH] + file)
    else Built(dir + file)
  }

  /** Two names joined to the same directory give the same path only if
      they are the same name, so full paths of distinct entries differ. */
  lemma JoinPathInjective(dir: Path, f1: Name, f2: Name)
    requires JoinPath(dir, f1).Built? && JoinPath(dir, f2).Built?
    ensures JoinPath(dir, f1).path == JoinPath(dir, f2).path ==> f1 == f2
  {
    var p1, p2 := JoinPath(dir, f1).path, JoinPath(dir, f2).path;
    if |dir| > 0 && dir[|dir| - 1] != SLASH {
      assert f1 == p1[|dir| + 1..] && f2 == p2[|dir| + 1..];
    } else {
      assert f1 == p1[|dir|..] && f2 == p2[|dir|..];
    }
  }

  /** The part of a path after its last '/'. */
  function Basename(p: Path): Path {
    if p == [] || p[|p| - 1] == SLASH then []
    else Basename(p[..|p| - 1]) + [p[|p| - 1]]
  }

  lemma {:induction false} BasenameAfterSlash(x: Path, y: Name)
    requires x == [] || x[|x| - 1] == SLASH
    requires SLASH !in y
    ensures Basename(x + y) == y
    decreases |y|
  {
    if y != [] {
      var y' := y[..|y| - 1];
      assert (x + y)[..|x + y| - 1] == x + y';
      BasenameAfterSlash(x, y');
    } else {
      assert x + y == x;
    }
  }

  /** Round trip: the last component of a joined path is the file name it
      was built from (names never contain '/'). */
  lemma BasenameOfJoin(dir: Path, file: Name)
    requires JoinPath(dir, file).Built? && SLASH !in file
    ensures Basename(JoinPath(dir, file).path) == file
  {
    if |dir| > 0 && dir[|dir| - 1] != SLASH {
      assert dir + [SLASH] + file == (dir + [SLASH]) + file;
      BasenameAfterSlash(dir + [SLASH], file);
    } else {
      BasenameAfterSlash(dir, file);
    }
  }

  /** strcat(buf, src) onto a buffer holding len bytes: the bytes before
      len stay, src follows them.  strcpy is the case len = 0. */
  method Append(buf: array<byte>, len: nat, src: seq<byte>)
    requires len + |src| <= buf.Length
    modifies buf
    ensures buf[..len + |src|] == old(buf[..len]) + src
  {
    ghost var before := buf[..len];
    var m := 0;
    while m < |src|
      invariant 0 <= m <= |src|
      invariant buf[..len] == before
      invariant forall k :: 0 <= k < m ==> buf[len + k] == src[k]
    {
      buf[len + m] := src[m];
      m := m + 1;
    }
    assert buf[..len + |src|] == before + src by {
      forall k | len <= k < len + |src| ensures buf[..len + |src|][k] == (before + src)[k] {
        assert buf[len + (k - len)] == src[k - len];
      }
    }
  }

  /** build_path: checks the length, then fills a buffer of total_len bytes
      with strcpy and strcat. */
  method BuildPath(dir: Path, file: Name) returns (r: PathResult)
    ensures r == JoinPath(dir, file)
  {
    var totalLen := |dir| + 1 + |file| + 1;
    if totalLen > PATH_MAX {
      return TooLong;
    }
    var path := new byte[totalLen];
    Append(path, 0, dir);
    var n := |dir|;
    assert path[..n] == dir;
    if |dir| > 0 && dir[|dir| - 1] != SLASH {
      Append(path, n, [SLASH]);
      n := n + 1;
    }
    ghost var prefix := path[..n];
    assert prefix == if |dir| > 0 && dir[|dir| - 1] != SLASH then dir + [SLASH] else dir;
    Append(path, n, file);
    r := Built(path[..n + |file|]);
  }
}
