/**
 The parser of include/jsmn.h as the repository compiles it: neither JSMN_STRICT nor
 JSMN_PARENT_LINKS. The parser's fields and the token array are updated in place, as in the
 source; every method is proved to compute a function of JsmnMachine or JsmnLexing.
 */
module Jsmn {
  import opened JsmnLexing
  import opened JsmnMachine

  class Parser {
    var pos: nat
    var toknext: nat
    var toksuper: int
    /** History for the proofs: `toksuper` at the making of each token. */
    ghost var parents: seq<int>

    /** jsmn_init */
    constructor ()
      ensures pos == 0 && toknext == 0 && toksuper == -1 && parents == []
    {
      pos, toknext, toksuper, parents := 0, 0, -1, [];
    }

    ghost function View(tokens: array<Token>): State
      requires toknext <= tokens.Length
      reads this, tokens
    {
      State(pos, toksuper, tokens[..toknext], parents)
    }

    ghost predicate Valid(tokens: array?<Token>)
      reads this, tokens
    {
      tokens != null ==> toknext <= tokens.Length && View(tokens).Valid()
    }

    /** jsmn_alloc_token: the index of a fresh token, or -1 (the source's NULL) when the pool is used up. */
    method AllocToken(tokens: array<Token>, numTokens: nat) returns (r: int)
      requires numTokens <= tokens.Length && toknext <= tokens.Length
      modifies this`toknext, tokens
      ensures old(toknext) >= numTokens ==> r == -1 && toknext == old(toknext) && tokens[..] == old(tokens[..])
      ensures old(toknext) < numTokens ==>
              && r == old(toknext) && toknext == old(toknext) + 1
              && tokens[..] == old(tokens[..])[r := old(tokens[toknext]).(start := -1, end := -1, size := 0)]
    {
      if toknext >= numTokens {
        return -1;
      }
      r := toknext;
      toknext := toknext + 1;
      tokens[r] := tokens[r].(start := -1, end := -1);
      tokens[r] := tokens[r].(size := 0);
    }

    /** jsmn_parse_primitive. */
    method ParsePrimitive(js: string, tokens: array?<Token>, numTokens: nat) returns (r: int)
      requires !AtEnd(js, pos) && StartsPrimitive(js[pos])
      requires tokens != null ==> numTokens <= tokens.Length && toknext <= tokens.Length
      modifies this`pos, this`toknext, tokens
      ensures r < 0 ==> pos == old(pos) && toknext == old(toknext) && (tokens != null ==> tokens[..] == old(tokens[..]))
      ensures match ScanPrimitive(js, old(pos))
              case Invalid => r == JSMN_ERROR_INVAL
              case Closed(k) =>
                if tokens == null then
                  r == 0 && pos == k - 1 && toknext == old(toknext)
                else if old(toknext) >= numTokens then
                  r == JSMN_ERROR_NOMEM
                else
                  && r == 0 && pos == k - 1 && toknext == old(toknext) + 1
                  && tokens[..] == old(tokens[..])[old(toknext) := Token(Primitive, old(pos), k, 0)]
    {
      var start := pos;
      while !AtEnd(js, pos) && !EndsPrimitive(js[pos])
        invariant start <= pos <= |js|
        invariant ScanPrimitive(js, pos) == ScanPrimitive(js, start)
        invariant toknext == old(toknext) && (tokens != null ==> tokens[..] == old(tokens[..]))
        decreases |js| - pos
      {
        if js[pos] as int < 32 || js[pos] as int >= 127 {
          pos := start;
          return JSMN_ERROR_INVAL;
        }
        pos := pos + 1;
      }
      if tokens == null {
        pos := pos - 1;
        return 0;
      }
      var t := AllocToken(tokens, numTokens);
      if t == -1 {
        pos := start;
        return JSMN_ERROR_NOMEM;
      }
      tokens[t] := Token(Primitive, start, pos, 0);
      pos := pos - 1;
      return 0;
    }

    /** The four digits after `\u`; on success `pos` is on the last one read. */
    method SkipUnicodeDigits(js: string, start: nat) returns (ok: bool)
      requires pos < |js|
      modifies this`pos
      ensures ok <==> HexDigits(js, old(pos) + 1, 4).Closed?
      ensures pos == if ok then HexDigits(js, old(pos) + 1, 4).at - 1 else start
    {
      pos := pos + 1;
      var i := 0;
      while i < 4 && !AtEnd(js, pos)
        invariant 0 <= i <= 4 && old(pos) + 1 <= pos <= |js|
        invariant HexDigits(js, pos, 4 - i) == HexDigits(js, old(pos) + 1, 4)
      {
        if !IsHex(js[pos]) {
          pos := start;
          return false;
        }
        pos := pos + 1;
        i := i + 1;
      }
      pos := pos - 1;
      return true;
    }

    /** jsmn_parse_string: `pos` is on the opening quote before, and on the closing one after success. */
    method ParseString(js: string, tokens: array?<Token>, numTokens: nat) returns (r: int)
      requires pos < |js|
      requires tokens != null ==> numTokens <= tokens.Length && toknext <= tokens.Length
      modifies this`pos, this`toknext, tokens
      ensures r < 0 ==> pos == old(pos) && toknext == old(toknext) && (tokens != null ==> tokens[..] == old(tokens[..]))
      ensures match ScanString(js, old(pos) + 1)
              case Invalid => r == JSMN_ERROR_INVAL
              case Unterminated => r == JSMN_ERROR_PART
              case Closed(k) =>
                if tokens == null then
                  r == 0 && pos == k && toknext == old(toknext)
                else if old(toknext) >= numTokens then
                  r == JSMN_ERROR_NOMEM
                else
                  && r == 0 && pos == k && toknext == old(toknext) + 1
                  && tokens[..] == old(tokens[..])[old(toknext) := Token(String, old(pos) + 1, k, 0)]
    {
      var start := pos;
      pos := pos + 1;
      while !AtEnd(js, pos)
        invariant start < pos <= |js|
        invariant ScanString(js, pos) == ScanString(js, start + 1)
        invariant toknext == old(toknext) && (tokens != null ==> tokens[..] == old(tokens[..]))
        decreases |js| - pos
      {
        var c := js[pos];
        if c == '\"' {
          if tokens == null {
            return 0;
          }
          var t := AllocToken(tokens, numTokens);
          if t == -1 {
            pos := start;
            return JSMN_ERROR_NOMEM;
          }
          tokens[t] := Token(String, start + 1, pos, 0);
          return 0;
        }
        if c == '\\' && pos + 1 < |js| {
          pos := pos + 1;
          if js[pos] == 'u' {
            var ok := SkipUnicodeDigits(js, start);
            if !ok {
              return JSMN_ERROR_INVAL;
            }
          } else if !IsSimpleEscape(js[pos]) {
            pos := start;
            return JSMN_ERROR_INVAL;
          }
        }
        pos := pos + 1;
      }
      pos := start;
      return JSMN_ERROR_PART;
    }

    /** The `{` and `[` case of jsmn_parse with a token array. */
    method OpenBracket(js: string, tokens: array<Token>, numTokens: nat) returns (r: int)
      requires pos < |js| && IsOpening(js[pos]) && numTokens <= tokens.Length && Valid(tokens)
      modifies this, tokens
      ensures Valid(tokens)
      ensures match OpenStep(js, old(View(tokens)), numTokens)
              case Halt(code) => r == code && View(tokens) == old(View(tokens))
              case Go(next) => r == 0 && View(tokens).(pos := pos + 1) == next
    {
      ghost var before := View(tokens);
      var t := AllocToken(tokens, numTokens);
      if t == -1 {
        assert tokens[..toknext] == before.tokens;
        return JSMN_ERROR_NOMEM;
      }
      assert tokens[..t] == before.tokens && tokens[..][t] == tokens[t];
      assert tokens[t].size == 0 && tokens[t].end == -1;
      if toksuper != -1 {
        tokens[toksuper] := tokens[toksuper].(size := tokens[toksuper].size + 1);
      }
      assert tokens[..t] == Bump(before.tokens, before.toksuper);
      tokens[t] := tokens[t].(kind := if js[pos] == '{' then Object else Array);
      tokens[t] := tokens[t].(start := pos);
      parents := parents + [toksuper];
      toksuper := toknext - 1;
      assert tokens[..t] == Bump(before.tokens, before.toksuper);
      assert tokens[..toknext] == tokens[..t] + [tokens[t]];
      return 0;
    }

    /** The backward scan for a token with a start and no end, among the first `n`. */
    method ScanBack(tokens: array<Token>, n: nat) returns (i: int)
      requires n <= toknext <= tokens.Length
      ensures i == LastOpen(tokens[..toknext], n)
    {
      i := n - 1;
      while i >= 0 && !tokens[i].IsOpen()
        invariant -1 <= i < n
        invariant LastOpen(tokens[..toknext], i + 1) == LastOpen(tokens[..toknext], n)
      {
        i := i - 1;
      }
    }

    /** The `}` and `]` case: a backward scan for the last open token, then one for the next open one. */
    method CloseBracket(js: string, tokens: array<Token>) returns (r: int)
      requires pos < |js| && IsClosing(js[pos]) && Valid(tokens)
      modifies this`toksuper, tokens
      ensures Valid(tokens)
      ensures match CloseByScan(js, old(View(tokens)))
              case Halt(code) => r == code && View(tokens) == old(View(tokens))
              case Go(next) => r == 0 && View(tokens).(pos := pos + 1) == next
    {
      ghost var before := View(tokens);
      var kind := if js[pos] == '}' then Object else Array;
      var i := ScanBack(tokens, toknext);
      if i == -1 {
        return JSMN_ERROR_INVAL;
      }
      if tokens[i].kind != kind {
        return JSMN_ERROR_INVAL;
      }
      tokens[i] := tokens[i].(end := pos + 1);
      assert tokens[..toknext] == before.tokens[i := before.tokens[i].(end := pos + 1)];
      toksuper := ScanBack(tokens, i);
      LastOpenDependsOnPrefix(tokens[..toknext], before.tokens, i);
      return 0;
    }

    /** The `,` case with a token array. */
    method Comma(tokens: array<Token>)
      requires Valid(tokens)
      modifies this`toksuper
      ensures View(tokens) == old(View(tokens)).(toksuper := CommaSuper(old(View(tokens)), BackwardScan))
      ensures Valid(tokens)
    {
      if toksuper != -1 && tokens[toksuper].kind != Array && tokens[toksuper].kind != Object {
        ghost var ts := tokens[..toknext];
        var i := toknext - 1;
        while i >= 0
          invariant -1 <= i < toknext
          invariant toksuper == old(toksuper)
          invariant LastOpenContainer(ts, i + 1) == LastOpenContainer(ts, |ts|)
        {
          if tokens[i].kind == Array || tokens[i].kind == Object {
            if tokens[i].start != -1 && tokens[i].end == -1 {
              toksuper := i;
              break;
            }
          }
          i := i - 1;
        }
      }
    }

    /** A string or primitive token has been made: count it in its superior. */
    method CountInSuperior(tokens: array<Token>, ghost before: State)
      requires toknext <= tokens.Length && before.Valid() && toknext == |before.tokens| + 1
      requires toksuper == before.toksuper && parents == before.parents
      requires tokens[..toknext - 1] == before.tokens
      modifies this`parents, tokens
      ensures Valid(tokens)
      ensures View(tokens) == Add(before, old(tokens[toknext - 1]), pos)
    {
      ghost var last := tokens[toknext - 1];
      if toksuper != -1 {
        tokens[toksuper] := tokens[toksuper].(size := tokens[toksuper].size + 1);
      }
      parents := parents + [toksuper];
      assert tokens[..toknext] == Bump(before.tokens, before.toksuper) + [last];
    }

    /** One turn of the main loop with a token array, up to the `pos++` of the loop header. */
    method Turn(js: string, tokens: array<Token>, numTokens: nat) returns (r: int)
      requires numTokens <= tokens.Length && Valid(tokens) && !AtEnd(js, pos)
      modifies this, tokens
      ensures Valid(tokens)
      ensures toknext == old(toknext) + (if r > 0 then r else 0)
      ensures match Step(js, old(View(tokens)), numTokens, BackwardScan)
              case Halt(code) => r == code && View(tokens) == old(View(tokens))
              case Go(next) => r >= 0 && View(tokens).(pos := pos + 1) == next
    {
      ghost var before := View(tokens);
      var c := js[pos];
      r := 0;
      if IsOpening(c) {
        r := OpenBracket(js, tokens, numTokens);
        if r == 0 {
          r := 1;
        }
      } else if IsClosing(c) {
        r := CloseBracket(js, tokens);
      } else if c == '\"' {
        r := ParseString(js, tokens, numTokens);
        if r < 0 {
          assert tokens[..toknext] == before.tokens;
          return;
        }
        assert tokens[..toknext - 1] == before.tokens;
        CountInSuperior(tokens, before);
        r := 1;
      } else if IsSpace(c) {
      } else if c == ':' {
        toksuper := toknext - 1;
      } else if c == ',' {
        Comma(tokens);
      } else {
        r := ParsePrimitive(js, tokens, numTokens);
        if r < 0 {
          assert tokens[..toknext] == before.tokens;
          return;
        }
        assert tokens[..toknext - 1] == before.tokens;
        CountInSuperior(tokens, before);
        r := 1;
      }
    }

    /** The same turn, seen from the whole run. */
    method TurnOfRun(js: string, tokens: array<Token>, numTokens: nat) returns (r: int)
      requires numTokens <= tokens.Length && Valid(tokens) && !AtEnd(js, pos)
      modifies this, tokens
      ensures Valid(tokens)
      ensures toknext == old(toknext) + (if r > 0 then r else 0)
      ensures if r < 0 then (View(tokens), r) == Run(js, old(View(tokens)), numTokens, BackwardScan)
              else
                && old(pos) <= pos < |js|
                && Run(js, View(tokens).(pos := pos + 1), numTokens, BackwardScan)
                   == Run(js, old(View(tokens)), numTokens, BackwardScan)
    {
      r := Turn(js, tokens, numTokens);
    }

    /** jsmn_parse with a token array: the fill pass. */
    method Fill(js: string, tokens: array<Token>, numTokens: nat) returns (r: int)
      requires numTokens <= tokens.Length && Valid(tokens)
      modifies this, tokens
      ensures Valid(tokens)
      ensures (View(tokens), r) == Run(js, old(View(tokens)), numTokens, BackwardScan)
    {
      var count := toknext;
      ghost var result := Run(js, View(tokens), numTokens, BackwardScan);
      while !AtEnd(js, pos)
        invariant Valid(tokens) && count == toknext
        invariant Run(js, View(tokens), numTokens, BackwardScan) == result
        decreases |js| - pos
      {
        r := TurnOfRun(js, tokens, numTokens);
        if r < 0 {
          return;
        }
        count := count + r;
        pos := pos + 1;
      }
      var i := ScanBack(tokens, toknext);
      if i != -1 {
        return JSMN_ERROR_PART;
      }
      return count;
    }

    /** jsmn_parse without a token array: the counting pass. */
    method CountTokens(js: string) returns (r: int)
      modifies this
      ensures (pos, r) == CountRun(js, old(pos), old(toknext))
      ensures toknext == old(toknext) && parents == old(parents)
    {
      var count := toknext;
      while !AtEnd(js, pos)
        invariant CountRun(js, pos, count) == CountRun(js, old(pos), old(toknext))
        invariant toknext == old(toknext) && parents == old(parents)
        decreases |js| - pos
      {
        var c := js[pos];
        if IsOpening(c) {
          count := count + 1;
        } else if c == '\"' {
          r := ParseString(js, null, 0);
          if r < 0 {
            return;
          }
          count := count + 1;
        } else if c == ':' {
          toksuper := toknext - 1;
        } else if StartsPrimitive(c) {
          r := ParsePrimitive(js, null, 0);
          if r < 0 {
            return;
          }
          count := count + 1;
        }
        pos := pos + 1;
      }
      return count;
    }

    /** jsmn_parse: it counts when there is no token array, and fills it otherwise. */
    method Parse(js: string, tokens: array?<Token>, numTokens: nat) returns (r: int)
      requires tokens != null ==> numTokens <= tokens.Length
      requires Valid(tokens)
      modifies this, tokens
      ensures Valid(tokens)
      ensures tokens == null ==> (pos, r) == CountRun(js, old(pos), old(toknext)) && toknext == old(toknext)
      ensures tokens != null ==> (View(tokens), r) == Run(js, old(View(tokens)), numTokens, BackwardScan)
    {
      if tokens == null {
        r := CountTokens(js);
      } else {
        r := Fill(js, tokens, numTokens);
      }
    }
  }
}
