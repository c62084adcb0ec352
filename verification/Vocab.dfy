/** Review severities (retinue/vocab.py), ordered by their enum value. */
module Vocab {
  datatype Severity = Low | Medium | High | Critical {
    function Level(): (n: nat)
      ensures 1 <= n <= 4
    {
      match this
      case Low => 1
      case Medium => 2
      case High => 3
      case Critical => 4
    }
  }
}
