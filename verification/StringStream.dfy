/** Reading words from a std::stringstream. */
module StringStream {
  /** isspace. */
  predicate IsBlank(c: char) {
    c == ' ' || '\t' <= c <= '\r'
  }

  function SkipBlanks(s: string): (r: string)
    ensures |r| <= |s| && (r != "" ==> !IsBlank(r[0]))
  {
    if s != "" && IsBlank(s[0]) then SkipBlanks(s[1..]) else s
  }

  function WordEnd(s: string): (k: nat)
    ensures k <= |s| && (s != "" && !IsBlank(s[0]) ==> k > 0)
  {
    if s == "" || IsBlank(s[0]) then 0 else 1 + WordEnd(s[1..])
  }

  datatype Extraction = Extraction(word: string, rest: string, eof: bool)

  /** `ss >> text`: without another word `text` keeps its value; the end of the
      stream is noticed only by running into it. */
  function Extract(s: string, text: string): (x: Extraction)
    ensures !x.eof ==> |x.rest| < |s| && x.word != ""
  {
    var t := SkipBlanks(s);
    var k := WordEnd(t);
    if t == "" then Extraction(text, "", true) else Extraction(t[..k], t[k..], k == |t|)
  }

  /** The values `text` takes in `while (!ss.eof()) { ss >> text; ... }`. */
  function Fed(s: string, text: string): (words: seq<string>)
    ensures words != []
    decreases |s|
  {
    var x := Extract(s, text);
    [x.word] + if x.eof then [] else Fed(x.rest, x.word)
  }

  predicate IsWord(w: string) {
    w != "" && forall i :: 0 <= i < |w| ==> !IsBlank(w[i])
  }

  /** The words separated by single blanks, with or without one more at the end. */
  function Line(words: seq<string>, trailing: bool): string
    requires words != []
  {
    words[0] + if |words| == 1 then (if trailing then " " else "") else " " + Line(words[1..], trailing)
  }

  lemma {:induction false} WordEndAt(w: string, s: string)
    requires (forall i :: 0 <= i < |w| ==> !IsBlank(w[i])) && (s == "" || IsBlank(s[0]))
    ensures WordEnd(w + s) == |w|
  {
    if w == "" {
      assert w + s == s;
    } else {
      WordEndAt(w[1..], s);
      assert (w + s)[1..] == w[1..] + s;
    }
  }

  lemma ExtractWord(w: string, s: string, text: string)
    requires IsWord(w) && (s == "" || IsBlank(s[0]))
    ensures Extract(w + s, text) == Extraction(w, s, s == "")
  {
    WordEndAt(w, s);
    assert (w + s)[..|w|] == w && (w + s)[|w|..] == s;
  }

  lemma FedBlank(s: string, text: string)
    ensures Fed(" " + s, text) == Fed(s, text)
  {
    assert (" " + s)[1..] == s;
  }

  lemma FedWord(w: string, s: string, text: string)
    requires IsWord(w) && (s == "" || IsBlank(s[0]))
    ensures Fed(w + s, text) == [w] + if s == "" then [] else Fed(s, w)
  {
    ExtractWord(w, s, text);
  }

  lemma FedNext(w: string, s: string, text: string)
    requires IsWord(w)
    ensures Fed(w + (" " + s), text) == [w] + Fed(s, w)
  {
    FedWord(w, " " + s, text);
    FedBlank(s, w);
  }

  /** A line is read as its words. A blank at its end makes the last word be
      read twice. */
  lemma {:induction false} FedLine(words: seq<string>, trailing: bool, text: string)
    requires words != [] && forall i :: 0 <= i < |words| ==> IsWord(words[i])
    ensures Fed(Line(words, trailing), text) == words + if trailing then [words[|words| - 1]] else []
  {
    var w, rest := words[0], words[1..];
    assert words == [w] + rest;
    if rest != [] {
      var s := Line(rest, trailing);
      FedNext(w, s, text);
      FedLine(rest, trailing, w);
      assert rest[|rest| - 1] == words[|words| - 1];
    } else if trailing {
      assert " " + "" == " ";
      FedNext(w, "", text);
    } else {
      FedWord(w, "", text);
    }
  }

  /** Without a word the text read before is fed once more. */
  lemma {:induction false} FedBlanks(s: string, text: string)
    requires forall i :: 0 <= i < |s| ==> IsBlank(s[i])
    ensures Fed(s, text) == [text]
  {
    AllSkipped(s);
  }

  lemma {:induction false} AllSkipped(s: string)
    requires forall i :: 0 <= i < |s| ==> IsBlank(s[i])
    ensures SkipBlanks(s) == ""
  {
    if s != "" {
      AllSkipped(s[1..]);
    }
  }

  predicate HasWord(s: string) {
    exists i :: 0 <= i < |s| && !IsBlank(s[i])
  }

  lemma {:induction false} SkipKeepsWord(s: string)
    ensures HasWord(s) <==> SkipBlanks(s) != ""
  {
    if s != "" && IsBlank(s[0]) {
      SkipKeepsWord(s[1..]);
      if HasWord(s) {
        var i :| 0 <= i < |s| && !IsBlank(s[i]);
        assert s[1..][i - 1] == s[i];
      }
    }
  }

  /** Only a blank command yields an empty word. */
  lemma {:induction false} FedNonEmpty(s: string, text: string)
    requires text != "" || HasWord(s)
    ensures forall i :: 0 <= i < |Fed(s, text)| ==> Fed(s, text)[i] != ""
    decreases |s|
  {
    SkipKeepsWord(s);
    var x := Extract(s, text);
    if !x.eof {
      FedNonEmpty(x.rest, x.word);
    }
  }
}
