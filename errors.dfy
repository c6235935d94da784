/** The failures the marshalling layer reports (the `anyhow::Error`s of `src/utils.rs`). */
module Errors {

  datatype Error =
    /** An `anyhow!("...")` raised by the layer itself, with its fixed text. */
    | Message(text: string)
    /** "Unsupported type for parameter binding: {type_name:?}". */
    | UnsupportedParameter(typeName: string)
    /** `extract::<i64>()` of a Python int outside the signed 64-bit range (OverflowError). */
    | IntOverflow
    /** `uuid::Uuid::parse_str` rejected the object's `str()` text. */
    | UuidSyntax(text: string)
    /** `IpAddr::from_str` rejected the object's `str()` text. */
    | AddrSyntax(text: string)
    /** `PyDict::set_item` or `PySet::new` was given an unhashable key (TypeError). */
    | Unhashable
    /** `datetime.timedelta(microseconds=None)` (TypeError), when `num_microseconds()` overflowed. */
    | TimedeltaNone
    /** The failure of a caller-supplied Python callable, passed through unchanged. */
    | CallFailed(reason: string)
}
