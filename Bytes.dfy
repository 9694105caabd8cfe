/** The unit of file contents both byte-oriented tools work on: an unsigned char. */
module Bytes {

  type byte = bv8
}
