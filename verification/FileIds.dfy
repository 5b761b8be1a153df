/** File ids of src/transport_files.c. */
module FileIds {
  datatype Fid = Fid(majId: int, minId: int)

  /** TR_file_id_compare(a, b) == 1 */
  predicate After(a: Fid, b: Fid) {
    a.majId > b.majId || (a.majId == b.majId && a.minId > b.minId)
  }
}
