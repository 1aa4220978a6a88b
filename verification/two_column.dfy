/**
 The line splitter of the feature-dbxref command:
 `feature, dbxref = line.strip().split("\t")`. The unpack succeeds only when
 the stripped line splits into exactly two fields; otherwise Python raises a
 ValueError that nothing in the command catches.
 */
module TwoColumn {
  import opened Job
  import opened PyStr

  const Tab: char := '\t'

  /** A line is accepted exactly when its stripped form holds one tab; any
      other count gives another number of fields and the unpack raises
      ValueError, which the model tags with that number (Python's message
      gives it only when there are too few fields). */
  function SplitLine(line: string): (r: Outcome<(string, string)>)
    ensures r.Returns? <==> Count(Strip(line), Tab) == 1
    ensures r.Raises? ==> r.exc == UnpackError(Count(Strip(line), Tab) + 1)
  {
    var fields := Split(Strip(line), Tab);
    if |fields| == 2 then Returns((fields[0], fields[1]))
    else Raises(UnpackError(|fields|))
  }

  /** An accepted line is its two names joined by one tab, once stripped. */
  lemma AcceptedFields(line: string)
    requires SplitLine(line).Returns?
    ensures var (feature, dbxref) := SplitLine(line).value;
            && Tab !in feature && Tab !in dbxref
            && Strip(line) == feature + [Tab] + dbxref
  {
    var fields := Split(Strip(line), Tab);
    JoinSplit(Strip(line), Tab);
    assert Join(fields[1..], Tab) == fields[1];
  }

  predicate Rejected(line: string)
  {
    SplitLine(line).Raises?
  }

  /** A line written as `feature<TAB>dbxref` followed by any line ending or
      trailing whitespace reads back as that pair, provided neither name holds
      a tab and the line neither starts nor ends (before the ending) with
      whitespace. */
  lemma SplitLineRoundTrip(feature: string, dbxref: string, ending: string)
    requires Tab !in feature && Tab !in dbxref
    requires feature != [] && !IsSpace(feature[0])
    requires dbxref != [] && !IsSpace(dbxref[|dbxref| - 1])
    requires AllSpace(ending)
    ensures SplitLine(feature + [Tab] + dbxref + ending) == Returns((feature, dbxref))
  {
    var body := feature + [Tab] + dbxref;
    assert body[0] == feature[0];
    assert body[|body| - 1] == dbxref[|dbxref| - 1];
    StripTrailing(body, ending);
    SplitTwoNames(feature, dbxref);
    SplitLineOf(body + ending, body, feature, dbxref);
  }

  lemma StripTrailing(body: string, ending: string)
    requires body == [] || (!IsSpace(body[0]) && !IsSpace(body[|body| - 1]))
    requires AllSpace(ending)
    ensures Strip(body + ending) == body
  {
    StripPadded([], body, ending);
    assert [] + body + ending == body + ending;
  }

  lemma SplitTwoNames(feature: string, dbxref: string)
    requires Tab !in feature && Tab !in dbxref
    ensures Split(feature + [Tab] + dbxref, Tab) == [feature, dbxref]
  {
    assert Join([feature, dbxref], Tab) == feature + [Tab] + dbxref by {
      assert [feature, dbxref][1..] == [dbxref];
    }
    SplitJoin([feature, dbxref], Tab);
  }

  lemma SplitLineOf(line: string, stripped: string, feature: string, dbxref: string)
    requires Strip(line) == stripped
    requires Split(stripped, Tab) == [feature, dbxref]
    ensures SplitLine(line) == Returns((feature, dbxref))
  {
  }

  /** A blank line (only whitespace, line ending included) yields one empty
      field, so the unpack fails. */
  lemma BlankLineRejected(line: string)
    requires AllSpace(line)
    ensures SplitLine(line) == Raises(UnpackError(1))
  {
    assert Strip(line) == [];
  }

  /** Strip also removes tabs: a line whose feature name is empty loses its
      leading separator and is rejected as a single field. */
  lemma EmptyFeatureRejected(dbxref: string, ending: string)
    requires Tab !in dbxref
    requires dbxref != [] && !IsSpace(dbxref[0]) && !IsSpace(dbxref[|dbxref| - 1])
    requires AllSpace(ending)
    ensures SplitLine([Tab] + dbxref + ending) == Raises(UnpackError(1))
  {
    StripPadded([Tab], dbxref, ending);
    SplitOneName(dbxref);
    SplitLineOneField([Tab] + dbxref + ending, dbxref);
  }

  /** Likewise a line whose dbxref is empty loses its trailing separator. */
  lemma EmptyDbxrefRejected(feature: string, ending: string)
    requires Tab !in feature
    requires feature != [] && !IsSpace(feature[0]) && !IsSpace(feature[|feature| - 1])
    requires AllSpace(ending)
    ensures SplitLine(feature + [Tab] + ending) == Raises(UnpackError(1))
  {
    var line := feature + [Tab] + ending;
    assert Strip(line) == feature by {
      assert AllSpace([Tab] + ending) by {
        assert forall i | 1 <= i < |[Tab] + ending| :: ([Tab] + ending)[i] == ending[i - 1];
      }
      assert line == feature + ([Tab] + ending);
      StripTrailing(feature, [Tab] + ending);
    }
    SplitOneName(feature);
    SplitLineOneField(line, feature);
  }

  lemma SplitOneName(name: string)
    requires Tab !in name
    ensures Split(name, Tab) == [name]
  {
    SplitJoin([name], Tab);
  }

  lemma SplitLineOneField(line: string, stripped: string)
    requires Strip(line) == stripped
    requires |Split(stripped, Tab)| == 1
    ensures SplitLine(line) == Raises(UnpackError(1))
  {
  }
}
