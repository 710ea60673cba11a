/** Java's nullable results (`HashMap.get`, `readLine`) as an explicit option. */
module Wrappers {

  datatype Option<T> = None | Some(value: T)

}
