/**
 * Everything the core calls but does not define: Node's JSON, URL, Buffer,
 * file-system and Date built-ins, and the helper modules of the repository
 * that are not part of this model (cookie rendering, body decompression,
 * MIME lookup, time conversion and the status-code table). Each is a total
 * function supplied by the caller of the model.
 */
module Host {
  import opened Wrappers
  import opened Js

  /** The part of `fs.Stats` the file server reads; `mtime` is in milliseconds. */
  datatype FileStats = FileStats(ino: nat, size: nat, mtime: int, isDirectory: bool)

  datatype Host = Host(
    /** `JSON.parse`; a failure carries the SyntaxError message. */
    jsonParse: string -> Result<JsValue, string>,
    /** `JSON.stringify`. */
    jsonStringify: JsValue -> string,
    /** `new URLSearchParams(s).entries()`, already percent-decoded. */
    formEntries: string -> seq<(string, string)>,
    /** `Buffer.from(s, 'base64').toString('ascii')`. */
    base64Ascii: string -> string,
    /** `Buffer.byteLength(s)` (UTF-8). */
    byteLength: string -> nat,
    /** The router's `safeDecodeURIComponent`. */
    decodeUriComponent: string -> string,
    /** `renderCookie(name, data)` of the set-cookie utility; `data` is `{ value, attrs }`. */
    renderCookie: (string, JsValue) -> string,
    /** `uncompressBody(encodings, body)`, given the encodings array; a failure is the message of the error it throws. */
    uncompress: (JsValue, string) -> Result<string, string>,
    /** `path.normalize(path.join(process.cwd(), baseDir, filePath))`. */
    resolvePath: (string, string) -> string,
    /** `fs.promises.stat`; None when it rejects. */
    stat: string -> Option<FileStats>,
    /** `getMimeType(path)`; None when the extension is unknown. */
    mimeType: string -> Option<string>,
    /** `new Date(ms).toISOString()`. */
    toIsoString: int -> string,
    /** `new Date(ms).toUTCString()`. */
    toUtcString: int -> string,
    /** `new Date(s).getTime()`; None for an Invalid Date. */
    parseDate: string -> Option<int>,
    /** `convertTime(v, 's')` of the time utility. */
    convertSeconds: JsValue -> int,
    /** `httpStatusCodes[code]`; None where the table has no entry. */
    statusText: int -> Option<string>,
    /** The package version baked in at build time. */
    version: string
  )

  /** The Date built-ins agree: an HTTP-date printed from a time reads back no later than it. */
  ghost predicate DatesRoundDown(h: Host) {
    forall ms :: h.parseDate(h.toUtcString(ms)).Some? && h.parseDate(h.toUtcString(ms)).value <= ms
  }

  /** `toISOString` is one-to-one (it prints the time to the millisecond). */
  ghost predicate IsoInjective(h: Host) {
    forall a, b :: h.toIsoString(a) == h.toIsoString(b) ==> a == b
  }
}
