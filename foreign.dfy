/** The library functions the tool calls and this model does not open up
    (hashing, base58, JSON text, UTF-8, regular expressions), gathered as a
    record of total functions that every operation using them receives. */
module Foreign {
  import opened Wrappers
  import opened Bytes
  import opened Json

  /** A SHA-256 digest: always 32 bytes. */
  type Digest = d: seq<byte> | |d| == 32 witness seq(32, _ => 0)

  datatype Foreign = Foreign(
    /** `createHash('sha256').update(data).digest()` */
    sha256: seq<byte> -> Digest,
    /** `bs58.encode(bytes)` */
    base58: seq<byte> -> string,
    /** `sha1(text)` as a hex string */
    sha1: string -> string,
    /** `JSON.stringify(value)` */
    jsonStringify: Value -> string,
    /** the mudb `stringify(value)`; the empty string stands for a falsy result */
    stringify: Value -> string,
    /** `JSON.parse(text)`, or the message of the SyntaxError it throws */
    parse: string -> Result<Value, string>,
    /** `Buffer.from(text, 'utf8')` */
    utf8Encode: string -> seq<byte>,
    /** `Buffer.from(bytes).toString()` */
    utf8Decode: seq<byte> -> string,
    /** the message of the SyntaxError `new RegExp(pattern)` throws, if it does */
    regexError: Value -> Option<string>,
    /** `key.match(new RegExp(pattern))` is non-null */
    regexMatches: (Value, string) -> bool)
}
