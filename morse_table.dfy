/** The fixed character-to-code table of the simulator, and the properties of
    its entries that the encoder and the player rely on. */
module MorseTable {

  datatype Option<T> = None | Some(value: T)

  /** The lookup table: upper-case letters, digits and punctuation to their
      dot/dash codes, and the space character to the word separator "/".
      A character that is not a key of the table gives None. */
  function MorseCodeMap(c: char): Option<string> {
    match c
    case 'A' => Some(".-")
    case 'B' => Some("-...")
    case 'C' => Some("-.-.")
    case 'D' => Some("-..")
    case 'E' => Some(".")
    case 'F' => Some("..-.")
    case 'G' => Some("--.")
    case 'H' => Some("....")
    case 'I' => Some("..")
    case 'J' => Some(".---")
    case 'K' => Some("-.-")
    case 'L' => Some(".-..")
    case 'M' => Some("--")
    case 'N' => Some("-.")
    case 'O' => Some("---")
    case 'P' => Some(".--.")
    case 'Q' => Some("--.-")
    case 'R' => Some(".-.")
    case 'S' => Some("...")
    case 'T' => Some("-")
    case 'U' => Some("..-")
    case 'V' => Some("...-")
    case 'W' => Some(".--")
    case 'X' => Some("-..-")
    case 'Y' => Some("-.--")
    case 'Z' => Some("--..")
    case '1' => Some(".----")
    case '2' => Some("..---")
    case '3' => Some("...--")
    case '4' => Some("....-")
    case '5' => Some(".....")
    case '6' => Some("-....")
    case '7' => Some("--...")
    case '8' => Some("---..")
    case '9' => Some("----.")
    case '0' => Some("-----")
    case '.' => Some(".-.-.-")
    case ',' => Some("--..--")
    case '?' => Some("..--..")
    case '\'' => Some(".----.")
    case '!' => Some("-.-.--")
    case '/' => Some("-..-.")
    case '(' => Some("-.--.")
    case ')' => Some("-.--.-")
    case '&' => Some(".-...")
    case ':' => Some("---...")
    case ';' => Some("-.-.-.")
    case '=' => Some("-...-")
    case '+' => Some(".-.-.")
    case '-' => Some("-....-")
    case '_' => Some("..--.-")
    case '"' => Some(".-..-.")
    case '$' => Some("...-..-")
    case '@' => Some(".--.-.")
    case ' ' => Some("/")
    case _ => None
  }

  /** A code built only from dots and dashes, with at least one of them. */
  predicate IsDotDash(code: string) {
    |code| > 0 && forall i | 0 <= i < |code| :: code[i] == '.' || code[i] == '-'
  }

  /** The inverse of the table: the key whose code is the given string. */
  function CharOfCode(code: string): (r: Option<char>)
    ensures r.Some? ==> MorseCodeMap(r.value) == Some(code)
  {
    match code
    case ".-" => Some('A')
    case "-..." => Some('B')
    case "-.-." => Some('C')
    case "-.." => Some('D')
    case "." => Some('E')
    case "..-." => Some('F')
    case "--." => Some('G')
    case "...." => Some('H')
    case ".." => Some('I')
    case ".---" => Some('J')
    case "-.-" => Some('K')
    case ".-.." => Some('L')
    case "--" => Some('M')
    case "-." => Some('N')
    case "---" => Some('O')
    case ".--." => Some('P')
    case "--.-" => Some('Q')
    case ".-." => Some('R')
    case "..." => Some('S')
    case "-" => Some('T')
    case "..-" => Some('U')
    case "...-" => Some('V')
    case ".--" => Some('W')
    case "-..-" => Some('X')
    case "-.--" => Some('Y')
    case "--.." => Some('Z')
    case ".----" => Some('1')
    case "..---" => Some('2')
    case "...--" => Some('3')
    case "....-" => Some('4')
    case "....." => Some('5')
    case "-...." => Some('6')
    case "--..." => Some('7')
    case "---.." => Some('8')
    case "----." => Some('9')
    case "-----" => Some('0')
    case ".-.-.-" => Some('.')
    case "--..--" => Some(',')
    case "..--.." => Some('?')
    case ".----." => Some('\'')
    case "-.-.--" => Some('!')
    case "-..-." => Some('/')
    case "-.--." => Some('(')
    case "-.--.-" => Some(')')
    case ".-..." => Some('&')
    case "---..." => Some(':')
    case "-.-.-." => Some(';')
    case "-...-" => Some('=')
    case ".-.-." => Some('+')
    case "-....-" => Some('-')
    case "..--.-" => Some('_')
    case ".-..-." => Some('"')
    case "...-..-" => Some('$')
    case ".--.-." => Some('@')
    case "/" => Some(' ')
    case _ => None
  }

  /** Every entry is a non-empty dot/dash code, except the space, whose code is "/". */
  lemma TableShape(c: char)
    ensures c == ' ' ==> MorseCodeMap(c) == Some("/")
    ensures c != ' ' && MorseCodeMap(c).Some? ==> IsDotDash(MorseCodeMap(c).value)
  {
  }

  /** The inverse table undoes the table on every key. */
  lemma CharOfCodeInverts(c: char)
    requires MorseCodeMap(c).Some?
    ensures CharOfCode(MorseCodeMap(c).value) == Some(c)
  {
  }

  /** No two keys share a code. */
  lemma CodesDistinct(a: char, b: char)
    requires MorseCodeMap(a).Some? && MorseCodeMap(b).Some?
    requires MorseCodeMap(a) == MorseCodeMap(b)
    ensures a == b
  {
    CharOfCodeInverts(a);
    CharOfCodeInverts(b);
  }
}
