/** White space, as the Go library's unicode.IsSpace and strings.TrimSpace see it. */
module Text {
  predicate IsSpace(c: char) {
    c in {'\t', '\n', '\U{B}', '\U{C}', '\r', ' ', '\U{85}', '\U{A0}', '\U{1680}',
          '\U{2028}', '\U{2029}', '\U{202F}', '\U{205F}', '\U{3000}'} || '\U{2000}' <= c <= '\U{200A}'
  }

  /** The code points with the White_Space property of Unicode. */
  lemma WhiteSpace(c: char)
    ensures IsSpace(c) <==>
      || 0x9 <= c as int <= 0xD || 0x2000 <= c as int <= 0x200A
      || c as int in [0x20, 0x85, 0xA0, 0x1680, 0x2028, 0x2029, 0x202F, 0x205F, 0x3000]
  {
  }

  /** Trimming leaves nothing. */
  predicate Blank(s: string) {
    forall c | c in s :: IsSpace(c)
  }
}
