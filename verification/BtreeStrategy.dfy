/** The six comparison operators of the btree_gist operator classes. */
module BtreeStrategy {
  datatype Strategy = LessThan | LessEqual | Equal | GreaterEqual | GreaterThan | NotEqual
}
