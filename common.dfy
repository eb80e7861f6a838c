/** Shared vocabulary of the model: optional values, table rows and the
    failures that the Python code raises as exceptions. */
module Common {

  datatype Option<+T> = None | Some(value: T)

  /** A cell of a CSV row as the reader hands it over: a string, or null
      once the `"N"` sentinel has been converted. */
  type Value = Option<string>

  /** A row of a CSV table read with a dictionary reader: field name to cell. */
  type Row = map<string, Value>

  /** The exceptions the pipeline lets escape, one constructor per cause. */
  datatype Error =
    | MissingField(name: string)   // KeyError on a row lacking a column
    | NullField                    // AttributeError: `.strip()` or `.startswith` on None
    | BadInteger(text: string)     // ValueError from `int(...)`
    | MissingPerson                // KeyError on a person absent from a lookup table
    | BlankLine                    // IndexError: `obj[0]` on an empty CSV line

  datatype Result<+T> = Ok(value: T) | Err(error: Error)
}
