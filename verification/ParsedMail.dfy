/** What parsing a MIME message yields (internal/mimeutil/parse.go:15-28). */
module ParsedMail {
  import opened Strings

  datatype Parsed = Parsed(filename: string, contentType: string, data: seq<byte>)

  datatype ParsedEmail = ParsedEmail(textBody: string, htmlBody: string, contentType: string,
                                     attachments: seq<Parsed>)
}
