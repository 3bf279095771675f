/** JavaScript's `undefined` and thrown strings, as values. */
module Wrappers {

  /** A value that may be `undefined` in the JavaScript original. */
  datatype Option<+T> = None | Some(value: T)

  /** The outcome of a JavaScript function that either returns or throws. */
  datatype Result<+T, +E> = Ok(value: T) | Err(error: E)

  /** One variant per message the extension throws. */
  datatype Error =
    | NotEsp8266               // "Current Arduino package/architecture is not ESP8266."
    | NoFlashSize              // "Can't determine Flash Size."
    | PackageNotInstalled      // "ESP8266 has not been installed with the Arduino Board Manager."
    | NotOnePackage            // "There should only be one ESP8266 Package installed ..."
    | MissingSpiffsStart       // Missing "spiffs_start" definition
    | MissingSpiffsEnd         // Missing "spiffs_end" definition
    | ToolDirMissing(tool: string)    // Can't locate "<tool>" path
    | NotOneTool(tool: string)        // There should only be one ESP8266 "<tool>" tool installed
    | ToolFileMissing(file: string)   // Can't locate <file>.
    | UndefinedValue           // a string method called on `undefined` (a TypeError)
}
