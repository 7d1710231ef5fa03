/** The item-type codes of itemtypes.h. Codes 0, 1, 3, 5, 9, g, I and s are
    those of section 3.8 of RFC 1436 (g and I among its experimental ones);
    h (HTML) and i (informational text) are de-facto extensions; '?' is the
    server's own marker for an entry it will never serve. */
module ItemTypes {

  const IT_IGNORE: char := '?'
  const IT_FILE: char := '0'
  const IT_DIR: char := '1'
  const IT_ERROR: char := '3'
  const IT_ARCHIVE: char := '5'
  const IT_BINARY: char := '9'
  const IT_GIF: char := 'g'
  const IT_HTML: char := 'h'
  const IT_INFO: char := 'i'
  const IT_IMAGE: char := 'I'
  const IT_AUDIO: char := 's'

  /** The seven codes the server gives to a regular file. */
  predicate IsFileType(t: char) {
    t == IT_FILE || t == IT_ARCHIVE || t == IT_BINARY || t == IT_GIF
    || t == IT_HTML || t == IT_IMAGE || t == IT_AUDIO
  }

  /** The six of them that are streamed as raw bytes rather than as text. */
  predicate IsBinaryType(t: char) {
    IsFileType(t) && t != IT_FILE
  }
}
