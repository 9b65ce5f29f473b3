/** What the coders of the bundled HTTP library share. */
module Http {
  const CRLF := "\r\n"
  const HEADER_MAX_LENGTH: nat := 8192
}
