/**
  The order shared by the SFTP and the local directory listings: directories before
  files, then names compared after lower-casing. Both comparators are
  `b.is_dir.cmp(&a.is_dir).then(lower(a.name).cmp(lower(b.name)))`.
*/
module Listing {
  import opened Strings

  /** `a` may precede `b`: `a` is a directory and `b` is not, or both are of one kind and `a`'s lower-cased name does not sort after `b`'s. */
  predicate DirsFirstLe(aDir: bool, aName: string, bDir: bool, bName: string) {
    if aDir != bDir then aDir else StrLe(Lower(aName), Lower(bName))
  }

  lemma DirsFirstTotal(aDir: bool, aName: string, bDir: bool, bName: string)
    ensures DirsFirstLe(aDir, aName, bDir, bName) || DirsFirstLe(bDir, bName, aDir, aName)
  {
    StrLeTotal(Lower(aName), Lower(bName));
  }

  lemma DirsFirstTransitive(aDir: bool, aName: string, bDir: bool, bName: string, cDir: bool, cName: string)
    requires DirsFirstLe(aDir, aName, bDir, bName) && DirsFirstLe(bDir, bName, cDir, cName)
    ensures DirsFirstLe(aDir, aName, cDir, cName)
  {
    if aDir == bDir == cDir {
      StrLeTransitive(Lower(aName), Lower(bName), Lower(cName));
    }
  }
}
