/** The optional-value wrapper used where the source signals absence with a
    sentinel (`findIndex` returning -1) or does nothing (a blank submit). */
module Optional {

  datatype Option<+T> = None | Some(value: T)
}
