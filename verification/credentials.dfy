/** Finding the API key at the top of quiz_simple.py: the environment
    first, then the `.env` file, else exit with status 1. */
module Credentials {
  import opened Text
  import opened Results

  const KeyPrefix: string := "GEMINI_API_KEY="

  /** The exit status when no key is found. */
  const MissingKeyStatus: nat := 1

  /** `line.strip().split("=", 1)[1]` for a line that starts with the key
      prefix: everything after the first `=` of the stripped line. */
  function LineValue(line: string): (v: string)
    requires StartsWith(line, KeyPrefix)
    ensures KeyPrefix + v == Strip(line)
  {
    var t := Strip(line);
    StripKeepsPrefix(line);
    FirstEqualsEndsPrefix(t);
    t[IndexOf(t, '=') + 1..]
  }

  /** Stripping a line that starts with the prefix keeps the prefix, since it
      starts with a letter and ends with `=`. */
  lemma StripKeepsPrefix(line: string)
    requires StartsWith(line, KeyPrefix)
    ensures StartsWith(Strip(line), KeyPrefix)
  {
    assert !IsSpace(KeyPrefix[0]) && !IsSpace(KeyPrefix[|KeyPrefix| - 1]);
    StripKeepsHead(line, KeyPrefix);
  }

  /** The first `=` of a line that starts with the prefix ends the prefix. */
  lemma FirstEqualsEndsPrefix(t: string)
    requires StartsWith(t, KeyPrefix)
    ensures '=' in t && IndexOf(t, '=') == |KeyPrefix| - 1
  {
    var m := |KeyPrefix| - 1;
    assert forall j :: 0 <= j <= m ==> t[j] == KeyPrefix[j];
    assert forall j :: 0 <= j < m ==> KeyPrefix[j] != '=';
    IndexOfFirst(t, '=', m);
  }

  /** `line.startswith("GEMINI_API_KEY=")` */
  predicate IsKeyLine(line: string)
  {
    StartsWith(line, KeyPrefix)
  }

  /** The loop over the `.env` lines stops at the FIRST line that starts
      with the prefix: its index, or None when no line does. */
  function FirstKeyLine(lines: seq<string>): (k: Option<nat>)
    ensures k.None? <==> forall i :: 0 <= i < |lines| ==> !IsKeyLine(lines[i])
    ensures k.Some? ==> k.value < |lines| && IsKeyLine(lines[k.value])
                        && forall j :: 0 <= j < k.value ==> !IsKeyLine(lines[j])
    decreases |lines|
  {
    if |lines| == 0 then None
    else if IsKeyLine(lines[0]) then Some(0)
    else
      var rest := lines[1..];
      assert forall i :: 1 <= i < |lines| ==> rest[i - 1] == lines[i];
      match FirstKeyLine(rest)
      case None => None
      case Some(k) => Some(k + 1)
  }

  /** The key the `.env` loop finds: the value of the first matching line. */
  function KeyFromDotenv(lines: seq<string>): (v: Option<string>)
    ensures v.None? <==> forall i :: 0 <= i < |lines| ==> !IsKeyLine(lines[i])
    ensures forall i :: 0 <= i < |lines| && IsKeyLine(lines[i])
                        && (forall j :: 0 <= j < i ==> !IsKeyLine(lines[j]))
                        ==> v == Some(LineValue(lines[i]))
  {
    match FirstKeyLine(lines)
    case None => None
    case Some(k) => Some(LineValue(lines[k]))
  }

  /** The key the script goes on with, or the exit status it stops with.
      `env` is the environment value (empty when unset); `dotenv` is the
      lines of the `.env` file, None when the file does not exist. */
  function LookupKey(env: string, dotenv: Option<seq<string>>): (r: Result<string, nat>)
    ensures env != "" ==> r == Ok(env)
    ensures r.Ok? ==> r.value != ""
    ensures r.Err? ==> r.error == MissingKeyStatus
    ensures env == "" && dotenv.None? ==> r == Err(MissingKeyStatus)
    ensures env == "" && dotenv.Some? ==>
              match KeyFromDotenv(dotenv.value)
              case None => r == Err(MissingKeyStatus)
              case Some(v) => r == if v == "" then Err(MissingKeyStatus) else Ok(v)
  {
    var key :=
      if env != "" then env
      else match dotenv
        case None => ""
        case Some(lines) =>
          match KeyFromDotenv(lines)
          case None => ""
          case Some(v) => v;
    if key == "" then Err(MissingKeyStatus) else Ok(key)
  }

  /** A value may itself contain `=`: only the first one separates it. */
  lemma ValueKeepsEquals(v: string)
    requires v == [] || !IsSpace(v[|v| - 1])
    ensures LineValue(KeyPrefix + v) == v
  {
    var line := KeyPrefix + v;
    assert line[..|KeyPrefix|] == KeyPrefix;
    assert line[0] == 'G';
    assert line[|line| - 1] == if v == [] then '=' else v[|v| - 1];
    StripNoop(line);
  }

  /** The first matching line decides, even when its value is empty: a later
      line with a real key is never read, and the script exits. */
  lemma FirstMatchShadowsLater(rest: seq<string>)
    ensures LookupKey("", Some([KeyPrefix + "\n"] + rest)) == Err(MissingKeyStatus)
  {
    var line := KeyPrefix + "\n";
    assert IsKeyLine(line) by { assert line[..|KeyPrefix|] == KeyPrefix; }
    assert ([line] + rest)[0] == line;
    assert !IsSpace(KeyPrefix[0]) && !IsSpace(KeyPrefix[|KeyPrefix| - 1]);
    StripPadded(KeyPrefix, "\n");
    assert KeyPrefix + LineValue(line) == KeyPrefix + "";
  }
}
