/** The unanswered-query log: `log_and_commit_to_git` opens the log file for
    appending and writes one record per escalated question. */
module Escalation {
  import opened PyText

  const EmailLead: string := "Email: "
  const QueryLead: string := ", Query: "

  /** One record: the address and the question after their leads, ended by a
      newline. */
  function LogLine(email: string, query: string): string {
    EmailLead + email + QueryLead + query + "\n"
  }

  /** A record starts with the e-mail address after its lead, ends with the
      question after its lead and a line break, and holds no other line
      break than those inside the address and the question, so it is one
      line of the file whenever these two are single-line. */
  lemma LogLineShape(email: string, query: string)
    ensures var line := LogLine(email, query);
      && line[..|EmailLead| + |email|] == EmailLead + email
      && line[|line| - |QueryLead| - |query| - 1..] == QueryLead + query + "\n"
      && Count(line, '\n') == Count(email, '\n') + Count(query, '\n') + 1
  {
    LineSplitsAt(email, query);
    LineCount(email, query);
  }

  lemma LineSplitsAt(email: string, query: string)
    ensures LogLine(email, query) == (EmailLead + email) + (QueryLead + query + "\n")
  {
  }

  lemma LineCount(email: string, query: string)
    ensures Count(LogLine(email, query), '\n') == Count(email, '\n') + Count(query, '\n') + 1
  {
    LeadsAreSingleLine();
    CountFive(EmailLead, email, QueryLead, query, "\n", '\n');
  }

  lemma LeadsAreSingleLine()
    ensures Count(EmailLead, '\n') == 0 && Count(QueryLead, '\n') == 0 && Count("\n", '\n') == 1
  {
    assert '\n' !in EmailLead && '\n' !in QueryLead;
  }

  lemma CountFive(a: string, b: string, c: string, d: string, e: string, x: char)
    ensures Count(a + b + c + d + e, x) == Count(a, x) + Count(b, x) + Count(c, x) + Count(d, x) + Count(e, x)
  {
  }

  /** The file contents after a sequence of writes grow by the last write. */
  lemma {:induction false} ConcatSnoc(writes: seq<string>, w: string)
    ensures Concat(writes + [w]) == Concat(writes) + w
  {
    if writes != [] {
      assert (writes + [w])[1..] == writes[1..] + [w];
      ConcatSnoc(writes[1..], w);
    } else {
      assert writes + [w] == [w];
    }
  }

  /** The log file, as the sequence of what has been written to it. */
  class QueryLog {
    var lines: seq<string>

    /** The log as found when the application starts. */
    constructor (existing: seq<string>)
      ensures lines == existing
    {
      lines := existing;
    }

    /** The text of the file. */
    function Text(): string
      reads this
    {
      Concat(lines)
    }

    /** Opens the file for appending and writes one record. `writable` says
        whether opening and writing succeed; when they do not, the exception
        is caught and printed, and the file is left as it was. */
    method Append(email: string, query: string, writable: bool)
      modifies this
      ensures lines == if writable then old(lines) + [LogLine(email, query)] else old(lines)
      ensures Text() == if writable then old(Text()) + LogLine(email, query) else old(Text())
    {
      if writable {
        ConcatSnoc(lines, LogLine(email, query));
        lines := lines + [LogLine(email, query)];
      }
    }
  }
}
