/** The enrolled-face store: parallel lists of names and embeddings, plus the
    `;`-separated text file that every append extends by one row. */
module FaceDb {
  import opened Vision

  const Separator: char := ';'

  /** `sep.join(fields)`. */
  function Join(fields: seq<string>, sep: char): string
  {
    if |fields| == 0 then ""
    else if |fields| == 1 then fields[0]
    else fields[0] + [sep] + Join(fields[1..], sep)
  }

  /** `s.split(sep)`: always at least one field. */
  function Split(s: string, sep: char): (fields: seq<string>)
    ensures |fields| >= 1
  {
    if s == [] then [""]
    else
      var rest := Split(s[1..], sep);
      if s[0] == sep then [""] + rest
      else [[s[0]] + rest[0]] + rest[1..]
  }

  /** The components of an embedding as `str(val)` renders them. */
  function Render(enc: Encoding, fmt: real -> string): (texts: seq<string>)
    ensures |texts| == |enc|
    ensures forall i :: 0 <= i < |enc| ==> texts[i] == fmt(enc[i])
  {
    if enc == [] then [] else [fmt(enc[0])] + Render(enc[1..], fmt)
  }

  /** The line appended to the encodings file for one sample. */
  function EncodeRow(name: string, enc: Encoding, fmt: real -> string): string
  {
    Join([name] + Render(enc, fmt), Separator) + "\n"
  }

  /** Splits one stored line back into its name and component texts. */
  function DecodeRow(line: string): seq<string>
  {
    if |line| > 0 && line[|line| - 1] == '\n' then Split(line[..|line| - 1], Separator)
    else Split(line, Separator)
  }

  lemma {:induction false} SplitNoSeparator(a: string, sep: char)
    requires sep !in a
    ensures Split(a, sep) == [a]
  {
    if a != [] {
      SplitNoSeparator(a[1..], sep);
      assert [a[0]] + a[1..] == a;
    }
  }

  lemma {:induction false} SplitAfterField(a: string, sep: char, b: string)
    requires sep !in a
    ensures Split(a + [sep] + b, sep) == [a] + Split(b, sep)
  {
    if a != [] {
      assert (a + [sep] + b)[1..] == a[1..] + [sep] + b;
      SplitAfterField(a[1..], sep, b);
      assert [a[0]] + a[1..] == a;
    } else {
      assert a + [sep] + b == [sep] + b;
    }
  }

  /** Splitting undoes joining when no field holds the separator. */
  lemma {:induction false} SplitJoin(fields: seq<string>, sep: char)
    requires |fields| >= 1
    requires forall i :: 0 <= i < |fields| ==> sep !in fields[i]
    ensures Split(Join(fields, sep), sep) == fields
  {
    if |fields| == 1 {
      SplitNoSeparator(fields[0], sep);
    } else {
      SplitJoin(fields[1..], sep);
      SplitAfterField(fields[0], sep, Join(fields[1..], sep));
      assert [fields[0]] + fields[1..] == fields;
    }
  }

  /** Reading a stored row back gives the name and every component's text,
      provided neither the name nor a rendered component holds `;`. */
  lemma RowRoundTrip(name: string, enc: Encoding, fmt: real -> string)
    requires Separator !in name
    requires forall i :: 0 <= i < |enc| ==> Separator !in fmt(enc[i])
    ensures DecodeRow(EncodeRow(name, enc, fmt)) == [name] + Render(enc, fmt)
  {
    var texts := Render(enc, fmt);
    var fields := [name] + texts;
    forall i | 0 <= i < |fields| ensures Separator !in fields[i] {
      if i > 0 {
        assert fields[i] == texts[i - 1] == fmt(enc[i - 1]);
      }
    }
    var joined := Join(fields, Separator);
    var line := joined + "\n";
    assert line[..|line| - 1] == joined;
    SplitJoin(fields, Separator);
  }

  /** The rows the store's file gains for a run of appends of one name. */
  function Rows(name: string, encs: seq<Encoding>, fmt: real -> string): string
  {
    if encs == [] then "" else Rows(name, encs[..|encs| - 1], fmt) + EncodeRow(name, encs[|encs| - 1], fmt)
  }

  class FaceDb {
    var names: seq<string>
    var encodings: seq<Encoding>
    /** Contents of the encodings file. */
    var file: string

    ghost predicate Valid()
      reads this
    {
      && |names| == |encodings|
      && forall i :: 0 <= i < |encodings| ==> |encodings[i]| == EncodingWidth
    }

    /** `load` on an empty file: an empty store. */
    constructor Empty()
      ensures Valid()
      ensures names == [] && encodings == [] && file == ""
    {
      names, encodings, file := [], [], "";
    }

    /** The store as `load` leaves it after parsing a non-empty file. */
    constructor Loaded(names0: seq<string>, encodings0: seq<Encoding>, file0: string)
      requires |names0| == |encodings0|
      requires forall i :: 0 <= i < |encodings0| ==> |encodings0[i]| == EncodingWidth
      ensures Valid()
      ensures names == names0 && encodings == encodings0 && file == file0
    {
      names, encodings, file := names0, encodings0, file0;
    }

    /** `FaceDB.append`: one more sample at the end of the lists and of the file. */
    method Append(name: string, enc: Encoding, fmt: real -> string)
      requires Valid()
      requires |enc| == EncodingWidth
      modifies this
      ensures Valid()
      ensures names == old(names) + [name]
      ensures encodings == old(encodings) + [enc]
      ensures file == old(file) + EncodeRow(name, enc, fmt)
    {
      names := names + [name];
      encodings := encodings + [enc];
      file := file + Join([name] + Render(enc, fmt), Separator) + "\n";
    }
  }
}
