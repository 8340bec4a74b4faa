/** The optional value used wherever the JavaScript code accepts or returns
    `null`/`undefined`.  For a string parameter, `None` stands for every
    argument the source's `!text || typeof text !== 'string'` guard rejects
    other than the empty string. */
module Wrappers {

  datatype Option<+T> = None | Some(value: T)

}
