/** The reader's patterns, each as the lines it matches and no others. */
module BuildLines {
  import opened Text
  import opened BuildText

  predicate WordChars(s: string) {
    s != "" && forall k :: 0 <= k < |s| ==>
                             'a' <= s[k] <= 'z' || 'A' <= s[k] <= 'Z' || '0' <= s[k] <= '9' || s[k] == '_'
  }

  predicate Digits(s: string) { s != "" && forall k :: 0 <= k < |s| ==> '0' <= s[k] <= '9' }

  predicate KindChars(s: string) {
    && s != "" && !('0' <= s[0] <= '9')
    && forall k :: 0 <= k < |s| ==> 'a' <= s[k] <= 'z' || '0' <= s[k] <= '9' || s[k] == '_'
  }

  // ---- attributes -----------------------------------------------------------------------------------

  lemma AttributeAt(line: string, key: string, value: string)
    requires ' ' !in key
    ensures line == "  " + key + " = " + value ==> AttributeOf(line) == Some(Attribute(key, value))
  {
    if line == "  " + key + " = " + value {
      var rest := line[2..];
      assert rest == key + [' '] + ("= " + value);
      IndexPast(key, "= " + value, ' ');
      assert rest[|key|..] == " = " + value;
      assert rest[..|key|] == key && rest[|key| + 3..] == value;
    }
  }

  lemma CutAt(rest: string, i: nat)
    requires i <= |rest| && " = " <= rest[i..]
    ensures i + 3 <= |rest| && rest == rest[..i] + " = " + rest[i + 3..]
  {
    assert rest[i..][..3] == " = ";
    assert rest[i..i + 3] == " = ";
    assert rest == rest[..i] + rest[i..i + 3] + rest[i + 3..];
  }

  lemma AttributeIs(line: string)
    requires AttributeOf(line).Some?
    ensures var a := AttributeOf(line).value;
            line == "  " + a.key + " = " + a.value && ' ' !in a.key
  {
    var rest := line[2..];
    assert line == "  " + rest;
    CutAt(rest, IndexOf(rest, ' '));
  }

  lemma QuotedAt(v: string, tail: string)
    requires '"' !in v && (tail == "" || tail == ",")
    ensures Quoted("\"" + v + "\"" + tail) == Some(v)
  {
    var rest := v + ['"'] + tail;
    IndexPast(v, tail, '"');
    assert ("\"" + v + "\"" + tail)[1..] == rest;
    assert rest[|v| + 1..] == tail && rest[..|v|] == v;
  }

  lemma QuotedIs(value: string, v: string)
    ensures Quoted(value) == Some(v) <==> '"' !in v && (value == "\"" + v + "\"" || value == "\"" + v + "\",")
  {
    if '"' !in v {
      QuotedAt(v, "");
      QuotedAt(v, ",");
      assert "\"" + v + "\"" + "" == "\"" + v + "\"" && "\"" + v + "\"" + "," == "\"" + v + "\",";
    }
    if Quoted(value) == Some(v) {
      var rest := value[1..];
      var j := IndexOf(rest, '"');
      assert value == "\"" + rest;
      assert rest == rest[..j] + "\"" + rest[j + 1..];
    }
  }

  /** Nothing but an attribute line starts with a space, and an attribute line is nothing else. */
  lemma SpaceIsAttribute(line: string)
    requires " " <= line
    ensures HeaderPackage(line).None?
    ensures Classify(line) == if AttributeOf(line).Some? then ClassifyAttribute(AttributeOf(line).value) else Other
  {
    SplitHead(line, '/');
    assert line[0] == ' ';
    if |line| >= 2 { assert line[..|line| - 1][0] == ' '; }
  }

  lemma KeyedIs(line: string, key: string, value: string)
    requires ' ' !in key
    ensures AttributeOf(line) == Some(Attribute(key, value)) <==> line == "  " + key + " = " + value
  {
    AttributeAt(line, key, value);
    if AttributeOf(line).Some? { AttributeIs(line); }
  }

  lemma AttributeStarts(line: string)
    requires AttributeOf(line).Some?
    ensures " " <= line
  {
  }

  /** A header, an opener and a closing parenthesis do not start with a space. */
  lemma ClassifiedAttribute(line: string)
    requires var l := Classify(line); l.NameAttr? || l.CrateAttr? || l.FeaturesAttr? || l.DepsAttr?
    ensures AttributeOf(line).Some? && Classify(line) == ClassifyAttribute(AttributeOf(line).value)
  {
  }

  lemma AttributeClassifies(line: string)
    requires AttributeOf(line).Some?
    ensures Classify(line) == ClassifyAttribute(AttributeOf(line).value)
  {
    SpaceIsAttribute(line);
  }

  /** A name or crate line: one quoted string, with or without a comma. */
  ghost predicate QuotedLine(line: string, key: string, v: string) {
    '"' !in v && (line == "  " + key + " = \"" + v + "\"" || line == "  " + key + " = \"" + v + "\",")
  }

  lemma QuotedLineIs(line: string, key: string, v: string)
    requires ' ' !in key
    ensures QuotedLine(line, key, v) <==>
              && AttributeOf(line).Some? && AttributeOf(line).value.key == key
              && Quoted(AttributeOf(line).value.value) == Some(v)
  {
    if QuotedLine(line, key, v) {
      var value := if line == "  " + key + " = \"" + v + "\"" then "\"" + v + "\"" else "\"" + v + "\",";
      Joined(key, v);
      KeyedIs(line, key, value);
      QuotedIs(value, v);
    } else if AttributeOf(line).Some? && AttributeOf(line).value.key == key {
      var value := AttributeOf(line).value.value;
      KeyedIs(line, key, value);
      QuotedIs(value, v);
      Joined(key, v);
    }
  }

  lemma Joined(key: string, v: string)
    ensures "  " + key + " = \"" + v + "\"" == "  " + key + " = " + ("\"" + v + "\"")
    ensures "  " + key + " = \"" + v + "\"," == "  " + key + " = " + ("\"" + v + "\",")
  {
  }

  lemma NameLine(line: string, v: string)
    ensures Classify(line) == NameAttr(v) <==> QuotedLine(line, "name", v)
  {
    QuotedLineIs(line, "name", v);
    if AttributeOf(line).Some? { AttributeClassifies(line); }
    if Classify(line) == NameAttr(v) { ClassifiedAttribute(line); }
  }

  lemma CrateLine(line: string, v: string)
    ensures Classify(line) == CrateAttr(v) <==> QuotedLine(line, "crate", v)
  {
    QuotedLineIs(line, "crate", v);
    if AttributeOf(line).Some? { AttributeClassifies(line); }
    if Classify(line) == CrateAttr(v) { ClassifiedAttribute(line); }
  }

  lemma FeaturesLine(line: string, literals: seq<string>)
    ensures Classify(line) == FeaturesAttr(literals) <==>
              exists value :: line == "  " + "crate_features" + " = " + value && literals == Literals(value)
  {
    if value :| line == "  " + "crate_features" + " = " + value && literals == Literals(value) {
      KeyedIs(line, "crate_features", value);
      AttributeClassifies(line);
    }
    if Classify(line) == FeaturesAttr(literals) {
      ClassifiedAttribute(line);
      AttributeIs(line);
    }
  }

  ghost predicate DepsValue(line: string, value: string) {
    line == "  " + "deps" + " = " + value || line == "  " + "proc_macro_deps" + " = " + value
  }

  lemma DepsReads(line: string, value: string)
    requires DepsValue(line, value)
    ensures Classify(line) == DepsAttr(Literals(value))
  {
    KeyedIs(line, "deps", value);
    KeyedIs(line, "proc_macro_deps", value);
    AttributeClassifies(line);
  }

  lemma DepsAreRead(line: string)
    requires Classify(line).DepsAttr?
    ensures exists value :: DepsValue(line, value) && Classify(line).literals == Literals(value)
  {
    ClassifiedAttribute(line);
    AttributeIs(line);
    assert DepsValue(line, AttributeOf(line).value.value);
  }

  lemma DepsLine(line: string, literals: seq<string>)
    ensures Classify(line) == DepsAttr(literals)
       <==> exists value :: DepsValue(line, value) && literals == Literals(value)
  {
    if value :| DepsValue(line, value) && literals == Literals(value) { DepsReads(line, value); }
    if Classify(line) == DepsAttr(literals) { DepsAreRead(line); }
  }

  // ---- headers, openers, closers --------------------------------------------------------------------------

  /** `# <anything>/crates/<pkg>/BUILD.bazel:<line>:<column>`. */
  ghost predicate HeaderLine(line: string, pkg: string) {
    WordChars(pkg) && exists pre, row, column :: HeaderParts(line, pkg, pre, row, column)
  }

  ghost predicate HeaderParts(line: string, pkg: string, pre: string, row: string, column: string) {
    && (pre == "" || pre[|pre| - 1] == '/') && Digits(row) && Digits(column)
    && line == "# " + pre + "crates/" + pkg + "/" + Position(row, column)
  }

  function Position(row: string, column: string): string { "BUILD.bazel:" + row + ":" + column }

  lemma PositionIs(seg: string)
    ensures IsPosition(seg) <==> exists row, column :: Digits(row) && Digits(column) && seg == Position(row, column)
  {
    if row, column :| Digits(row) && Digits(column) && seg == Position(row, column) {
      assert seg[12..] == row + [':'] + column;
      IndexPast(row, column, ':');
      assert seg[12..][..|row|] == row && seg[12..][|row| + 1..] == column;
    }
    if IsPosition(seg) {
      var at := seg[12..];
      var colon := IndexOf(at, ':');
      assert at == at[..colon] + ":" + at[colon + 1..];
      assert seg == Position(at[..colon], at[colon + 1..]);
    }
  }

  lemma PositionSlashFree(row: string, column: string)
    requires Digits(row) && Digits(column)
    ensures '/' !in Position(row, column)
  {
    assert '/' !in "BUILD.bazel:";
  }

  lemma SplitTail(head: string, pkg: string, position: string)
    requires '/' !in pkg && '/' !in position
    ensures Split(head + "/" + pkg + "/" + position, '/') == Split(head, '/') + [pkg, position]
  {
    assert head + "/" + pkg + "/" + position == head + ['/'] + (pkg + ['/'] + position);
    SplitPlain(pkg, '/');
    SplitPlain(position, '/');
    SplitConcat(pkg, position, '/');
    SplitConcat(head, pkg + ['/'] + position, '/');
  }

  lemma HeaderReads(line: string, pkg: string)
    requires HeaderLine(line, pkg)
    ensures HeaderPackage(line) == Some(pkg)
  {
    var pre, row, column :| HeaderParts(line, pkg, pre, row, column);
    var head, position := "# " + pre + "crates", Position(row, column);
    assert line == head + "/" + pkg + "/" + position;
    PositionSlashFree(row, column);
    PositionIs(position);
    SplitTail(head, pkg, position);
    HeadSegments(pre);
    HeaderOfSegments(line, Split(head, '/'), pkg, position);
  }

  lemma HeaderOfSegments(line: string, front: seq<string>, pkg: string, position: string)
    requires Split(line, '/') == front + [pkg, position] && IsPosition(position) && IsWord(pkg) && "# " <= line
    requires front == ["# crates"] || (|front| >= 2 && front[|front| - 1] == "crates")
    ensures HeaderPackage(line) == Some(pkg)
  {
  }

  lemma HeadSegments(pre: string)
    requires pre == "" || pre[|pre| - 1] == '/'
    ensures var segs := Split("# " + pre + "crates", '/');
            if pre == "" then segs == ["# crates"] else |segs| >= 2 && segs[|segs| - 1] == "crates"
  {
    if pre == "" {
      assert "# " + pre + "crates" == "# crates";
      SplitPlain("# crates", '/');
    } else {
      var q := pre[..|pre| - 1];
      assert "# " + pre + "crates" == ("# " + q) + ['/'] + "crates";
      SplitConcat("# " + q, "crates", '/');
      SplitPlain("crates", '/');
    }
  }

  lemma LastTwo(segs: seq<string>) returns (head: string)
    requires |segs| >= 3
    ensures Join(segs, '/') == head + "/" + segs[|segs| - 2] + "/" + segs[|segs| - 1]
    ensures head == Join(segs[..|segs| - 2], '/')
  {
    var n := |segs|;
    head := Join(segs[..n - 2], '/');
    assert segs == segs[..n - 2] + [segs[n - 2], segs[n - 1]];
    JoinConcat(segs[..n - 2], [segs[n - 2], segs[n - 1]], '/');
    JoinConcat([segs[n - 2]], [segs[n - 1]], '/');
    assert [segs[n - 2], segs[n - 1]] == [segs[n - 2]] + [segs[n - 1]];
  }

  lemma HeaderIsRead(line: string, pkg: string)
    requires HeaderPackage(line) == Some(pkg)
    ensures HeaderLine(line, pkg)
  {
    var segs := Split(line, '/');
    JoinSplit(line, '/');
    var head := LastTwo(segs);
    var pre := HeadOf(line, segs, head);
    var row, column := PositionParts(segs[|segs| - 1]);
    HeaderAssembles(line, head, pkg, pre, row, column);
  }

  lemma PositionParts(seg: string) returns (row: string, column: string)
    requires IsPosition(seg)
    ensures Digits(row) && Digits(column) && seg == Position(row, column)
  {
    PositionIs(seg);
    row, column :| Digits(row) && Digits(column) && seg == Position(row, column);
  }

  lemma HeaderAssembles(line: string, head: string, pkg: string, pre: string, row: string, column: string)
    requires WordChars(pkg) && Digits(row) && Digits(column) && head == "# " + pre + "crates"
    requires (pre == "" || pre[|pre| - 1] == '/') && line == head + "/" + pkg + "/" + Position(row, column)
    ensures HeaderLine(line, pkg)
  {
    var position := Position(row, column);
    assert line == "# " + pre + "crates/" + pkg + "/" + position;
    assert HeaderParts(line, pkg, pre, row, column);
  }

  lemma HeadOf(line: string, segs: seq<string>, head: string) returns (pre: string)
    requires |segs| >= 3 && head == Join(segs[..|segs| - 2], '/') && head + "/" <= line
    requires (|segs| == 3 && segs[0] == "# crates") || (|segs| > 3 && segs[|segs| - 3] == "crates" && "# " <= line)
    ensures head == "# " + pre + "crates" && (pre == "" || pre[|pre| - 1] == '/')
  {
    var n := |segs|;
    if n == 3 {
      pre := "";
    } else {
      var before := Join(segs[..n - 3], '/');
      assert segs[..n - 2] == segs[..n - 3] + ["crates"];
      JoinConcat(segs[..n - 3], ["crates"], '/');
      assert head == before + "/" + "crates";
      assert before + "/" <= line;
      LongEnough(before, line);
      pre := before[2..] + "/";
      assert before == "# " + before[2..];
    }
  }

  lemma LongEnough(before: string, line: string)
    requires before + "/" <= line && "# " <= line
    ensures "# " <= before
  {
    assert line[0] == '#' && line[1] == ' ' && line[|before|] == (before + "/")[|before|];
  }

  lemma HeaderIff(line: string, pkg: string)
    ensures Classify(line) == Header(pkg) <==> HeaderLine(line, pkg)
  {
    if HeaderLine(line, pkg) { HeaderReads(line, pkg); }
    if HeaderPackage(line) == Some(pkg) { HeaderIsRead(line, pkg); }
  }

  lemma OpenIff(line: string, kind: string)
    ensures Classify(line) == Open(kind) <==> KindChars(kind) && line == kind + "("
  {
    if KindChars(kind) && line == kind + "(" {
      assert line[..|line| - 1] == kind;
      NotHeader(line);
    }
    if Classify(line) == Open(kind) { assert line == line[..|line| - 1] + "("; }
  }

  lemma NotHeader(line: string)
    requires line != "" && line[0] != '#'
    ensures HeaderPackage(line).None?
  {
    if line[0] != '/' { SplitHead(line, '/'); }
  }

  lemma CloseIff(line: string)
    ensures Classify(line) == Close <==> line == ")"
  {
    if line == ")" { NotHeader(line); }
  }
}
