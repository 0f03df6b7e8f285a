/** Which names are write-ahead logs, and which database each belongs to. */
module WalNames {
  const WAL_SUFFIX := ".duckdb.wal"

  predicate HasSuffix(s: string, suffix: string) {
    |suffix| <= |s| && s[|s| - |suffix|..] == suffix
  }

  function TrimSuffix(s: string, suffix: string): string {
    if HasSuffix(s, suffix) then s[..|s| - |suffix|] else s
  }

  predicate IsWALFile(name: string) {
    HasSuffix(name, WAL_SUFFIX)
  }

  function GetDBFilename(wal: string): string {
    TrimSuffix(wal, ".wal")
  }

  /** The names of databases and of their logs determine each other; a database is never a log. */
  lemma WalNamesExact(wal: string, db: string)
    ensures IsWALFile(wal) && GetDBFilename(wal) == db <==> HasSuffix(db, ".duckdb") && wal == db + ".wal"
    ensures IsWALFile(wal) ==> !IsWALFile(GetDBFilename(wal))
  {
    if IsWALFile(wal) {
      assert wal[|wal| - 4..] == WAL_SUFFIX[7..] == ".wal";
      assert wal == wal[..|wal| - 4] + ".wal";
      var base := wal[..|wal| - 4];
      assert base[|base| - 7..] == wal[|wal| - 11..][..7] == ".duckdb";
      assert base[|base| - 1] == ".duckdb"[6] != WAL_SUFFIX[10];
      assert |base| >= 11 ==> base[|base| - 11..][10] == base[|base| - 1];
    }
    if HasSuffix(db, ".duckdb") && wal == db + ".wal" {
      assert wal[|wal| - 11..] == db[|db| - 7..] + ".wal" == WAL_SUFFIX;
      assert wal[|wal| - 4..] == ".wal" && wal[..|wal| - 4] == db;
    }
  }
}
