/** Classification of characters, as <ctype.h> has it in the C locale. */
module Chars {
  predicate IsUpper(c: char) { 'A' <= c <= 'Z' }
  predicate IsLower(c: char) { 'a' <= c <= 'z' }
  predicate IsAlpha(c: char) { IsUpper(c) || IsLower(c) }
  predicate IsDigit(c: char) { '0' <= c <= '9' }
  predicate IsAlnum(c: char) { IsAlpha(c) || IsDigit(c) }
  predicate IsXDigit(c: char) { IsDigit(c) || 'a' <= c <= 'f' || 'A' <= c <= 'F' }
  predicate IsSpace(c: char) { c == ' ' || '\t' <= c <= '\r' }
  predicate IsPrint(c: char) { ' ' <= c <= '~' }
  predicate IsCntrl(c: char) { c < ' ' || c as int == 127 }
  predicate IsPunct(c: char) { IsPrint(c) && c != ' ' && !IsAlnum(c) }
}
