/** An optional value: the search result that may be missing, the tag a
    field may lack, the tag list that a bad command line does not give. */
module Optional {

  datatype Option<+T> = None | Some(value: T)
}
