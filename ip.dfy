/**
 * `isValidIp` of MobileApp/components/HomeScreen.js: the anchored pattern
 * `^([0-9]{1,3}\.){3}[0-9]{1,3}$`, written over characters. The pattern has
 * no multiline flag, so `$` matches only at the end of the input.
 */
module IpValidation {

  predicate IsDigit(c: char)
  {
    '0' <= c <= '9'
  }

  /** `[0-9]{1,3}`: one to three ASCII digits. */
  predicate IsDigitGroup(g: string)
  {
    1 <= |g| <= 3 && forall i :: 0 <= i < |g| ==> IsDigit(g[i])
  }

  /** The pieces of `s` between dots, joined back by `Join`. */
  function Join(groups: seq<string>): string
    requires |groups| > 0
  {
    if |groups| == 1 then groups[0] else groups[0] + "." + Join(groups[1..])
  }

  /** `s` cut at every dot; `Join` undoes it and no piece holds a dot. */
  function Split(s: string): (r: seq<string>)
    ensures |r| > 0 && Join(r) == s
    ensures forall i :: 0 <= i < |r| ==> '.' !in r[i]
  {
    if s == [] then [""]
    else
      var rest := Split(s[1..]);
      if s[0] == '.' then
        assert s == "." + s[1..];
        [""] + rest
      else
        var r := [[s[0]] + rest[0]] + rest[1..];
        assert r[1..] == rest[1..];
        assert s == [s[0]] + s[1..];
        r
  }

  /** `isValidIp(ip)`: exactly four dot-separated groups of one to three digits. */
  predicate IsValidIp(ip: string)
  {
    var groups := Split(ip);
    |groups| == 4 && forall i :: 0 <= i < 4 ==> IsDigitGroup(groups[i])
  }

  function Dotted(a: string, b: string, c: string, d: string): string
  {
    a + "." + b + "." + c + "." + d
  }

  /** The regular expression read directly: the whole input is `a.b.c.d` for four digit groups. */
  ghost predicate MatchesIpPattern(ip: string)
  {
    exists a, b, c, d ::
      && IsDigitGroup(a) && IsDigitGroup(b) && IsDigitGroup(c) && IsDigitGroup(d)
      && ip == Dotted(a, b, c, d)
  }

  lemma {:induction false} SplitWithoutDot(a: string)
    requires '.' !in a
    ensures Split(a) == [a]
  {
    if a != [] {
      assert '.' !in a[1..] by {
        assert a == [a[0]] + a[1..];
      }
      SplitWithoutDot(a[1..]);
      assert [a[0]] + a[1..] == a;
    }
  }

  lemma {:induction false} SplitAfterGroup(a: string, t: string)
    requires '.' !in a
    ensures Split(a + "." + t) == [a] + Split(t)
  {
    var s := a + "." + t;
    if a == [] {
      assert s == "." + t && s[0] == '.' && s[1..] == t;
    } else {
      assert s[0] == a[0] && s[1..] == a[1..] + "." + t;
      assert '.' !in a[1..] by {
        assert a == [a[0]] + a[1..];
      }
      SplitAfterGroup(a[1..], t);
      assert [a[0]] + a[1..] == a;
    }
  }

  /** Cutting a dot-joined list of dot-free pieces gives the pieces back. */
  lemma {:induction false} SplitJoin(groups: seq<string>)
    requires |groups| > 0
    requires forall i :: 0 <= i < |groups| ==> '.' !in groups[i]
    ensures Split(Join(groups)) == groups
  {
    if |groups| == 1 {
      SplitWithoutDot(groups[0]);
    } else {
      SplitJoin(groups[1..]);
      SplitAfterGroup(groups[0], Join(groups[1..]));
      assert [groups[0]] + groups[1..] == groups;
    }
  }

  lemma JoinFour(a: string, b: string, c: string, d: string)
    ensures Join([a, b, c, d]) == Dotted(a, b, c, d)
  {
    assert [a, b, c, d][1..] == [b, c, d] && [b, c, d][1..] == [c, d] && [c, d][1..] == [d];
    assert Join([c, d]) == c + "." + d;
    assert Join([b, c, d]) == b + "." + (c + "." + d);
  }

  lemma DigitGroupHasNoDot(g: string)
    requires IsDigitGroup(g)
    ensures '.' !in g
  {
  }

  /** Four dot-free groups joined by dots split back into those four groups. */
  lemma SplitDotted(a: string, b: string, c: string, d: string)
    requires '.' !in a && '.' !in b && '.' !in c && '.' !in d
    ensures Split(Dotted(a, b, c, d)) == [a, b, c, d]
  {
    JoinFour(a, b, c, d);
    SplitJoin([a, b, c, d]);
  }

  lemma ValidIpIsDotted(ip: string)
    requires IsValidIp(ip)
    ensures var g := Split(ip); ip == Dotted(g[0], g[1], g[2], g[3])
  {
    var g := Split(ip);
    assert g == [g[0], g[1], g[2], g[3]];
    JoinFour(g[0], g[1], g[2], g[3]);
  }

  /** The validator accepts exactly the strings the regular expression matches. */
  lemma IsValidIpMatchesPattern(ip: string)
    ensures IsValidIp(ip) <==> MatchesIpPattern(ip)
  {
    if IsValidIp(ip) {
      var g := Split(ip);
      ValidIpIsDotted(ip);
      assert IsDigitGroup(g[0]) && IsDigitGroup(g[1]) && IsDigitGroup(g[2]) && IsDigitGroup(g[3]);
    }
    if MatchesIpPattern(ip) {
      var a, b, c, d :| && IsDigitGroup(a) && IsDigitGroup(b) && IsDigitGroup(c) && IsDigitGroup(d)
                        && ip == Dotted(a, b, c, d);
      DigitGroupHasNoDot(a);
      DigitGroupHasNoDot(b);
      DigitGroupHasNoDot(c);
      DigitGroupHasNoDot(d);
      SplitDotted(a, b, c, d);
    }
  }

  /**
   * An accepted string is 7 to 15 characters long, made only of digits and
   * dots, and starts and ends with a digit: no surrounding whitespace.
   */
  lemma ValidIpShape(ip: string)
    requires IsValidIp(ip)
    ensures 7 <= |ip| <= 15
    ensures forall ch :: ch in ip ==> IsDigit(ch) || ch == '.'
    ensures IsDigit(ip[0]) && IsDigit(ip[|ip| - 1])
  {
    ValidIpIsDotted(ip);
    var g := Split(ip);
    var a, b, c, d := g[0], g[1], g[2], g[3];
    assert IsDigitGroup(a) && IsDigitGroup(b) && IsDigitGroup(c) && IsDigitGroup(d);
    assert ip == a + "." + b + "." + c + "." + d;
    assert ip[0] == a[0];
    assert ip[|ip| - 1] == d[|d| - 1];
    forall ch | ch in ip ensures IsDigit(ch) || ch == '.' {
      if ch in a { var k :| 0 <= k < |a| && a[k] == ch; }
      if ch in b { var k :| 0 <= k < |b| && b[k] == ch; }
      if ch in c { var k :| 0 <= k < |c| && c[k] == ch; }
      if ch in d { var k :| 0 <= k < |d| && d[k] == ch; }
    }
  }

  /** On four dot-free pieces the validator only asks whether each is a digit group. */
  lemma IsValidIpOfDotted(a: string, b: string, c: string, d: string)
    requires '.' !in a && '.' !in b && '.' !in c && '.' !in d
    ensures IsValidIp(Dotted(a, b, c, d)) <==> IsDigitGroup(a) && IsDigitGroup(b) && IsDigitGroup(c) && IsDigitGroup(d)
  {
    SplitDotted(a, b, c, d);
    var groups := Split(Dotted(a, b, c, d));
    assert groups[0] == a && groups[1] == b && groups[2] == c && groups[3] == d;
  }

  lemma AcceptsExample()
    ensures IsValidIp("8.8.8.8")
  {
    IsValidIpOfDotted("8", "8", "8", "8");
    assert Dotted("8", "8", "8", "8") == "8.8.8.8";
  }

  /** Octets are not bounded by 255. */
  lemma AcceptsOutOfRangeOctet()
    ensures IsValidIp("999.1.1.1")
  {
    IsValidIpOfDotted("999", "1", "1", "1");
    assert Dotted("999", "1", "1", "1") == "999.1.1.1";
  }

  lemma RejectsWrongGroupCount()
    ensures !IsValidIp("8.8.8") && !IsValidIp("8.8.8.8.8")
  {
    SplitJoin(["8", "8", "8"]);
    assert Join(["8", "8", "8"]) == "8.8.8" by {
      assert ["8", "8", "8"][1..] == ["8", "8"] && ["8", "8"][1..] == ["8"];
    }
    SplitDotted("8", "8", "8", "8");
    SplitAfterGroup("8", "8.8.8.8");
    assert Dotted("8", "8", "8", "8") == "8.8.8.8";
    assert "8" + "." + "8.8.8.8" == "8.8.8.8.8";
  }

  lemma RejectsNonDigit()
    ensures !IsValidIp("8.8.8.a")
  {
    IsValidIpOfDotted("8", "8", "8", "a");
    assert Dotted("8", "8", "8", "a") == "8.8.8.a";
  }

  lemma RejectsEmptyGroup()
    ensures !IsValidIp("1..1.1")
  {
    IsValidIpOfDotted("1", "", "1", "1");
    assert Dotted("1", "", "1", "1") == "1..1.1";
  }

  lemma RejectsLongGroup()
    ensures !IsValidIp("1234.1.1.1")
  {
    IsValidIpOfDotted("1234", "1", "1", "1");
    assert Dotted("1234", "1", "1", "1") == "1234.1.1.1";
  }

  lemma RejectsLeadingWhitespace()
    ensures !IsValidIp(" 1.1.1.1")
  {
    IsValidIpOfDotted(" 1", "1", "1", "1");
    assert Dotted(" 1", "1", "1", "1") == " 1.1.1.1";
  }

  lemma RejectsTrailingWhitespace()
    ensures !IsValidIp("1.1.1.1 ")
  {
    IsValidIpOfDotted("1", "1", "1", "1 ");
    assert Dotted("1", "1", "1", "1 ") == "1.1.1.1 ";
  }
}
