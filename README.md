# Apache Felix 1.8.1 framework core, modelled in Dafny

This project models four parts of the Apache Felix 1.8.1 OSGi framework and
proves properties of the model:

- **The LDAP filter language** (`util/ldap/Parser.java`). A recursive-descent
  parser turns an RFC 1960 filter string into a postfix program of operators.
  An evaluator runs that program over a stack with a mapper that looks up
  attribute values. A printer rebuilds an expression tree from the program
  and prints it back as filter text. The model covers:
  - the grammar, as functions on (text, position) (`LdapParser`);
  - a `Parser` class over a `Lexer` object, proved to agree with those
    functions and to append exactly the code the `Compile` function gives;
  - the operators' stack effects and the evaluator (`LdapEval`);
  - value comparison, approximate matching by edit distance, and substring
    matching (`LdapCompare`);
  - value escaping (`LdapSyntax`);
  - `buildTree` and `toStringInfix` (`LdapInfix`).
  Against an independent meaning of filters (`Holds`), the main results are:
  - the compiled program evaluates to the filter's meaning;
  - printing a compiled program gives the filter's text;
  - the text of every well-formed filter parses back to that filter
    (`LdapRoundTrip`).
- **`FilterImpl`**, the framework's `Filter` object (`FrameworkFilter`). It
  covers:
  - the shared program cache and the constructor;
  - `equals` and `hashCode` by text, and the lazily kept `toString`;
  - `match` on a dictionary, case-insensitive or case-sensitive, or on a
    service reference;
  - the `SimpleMapper`, which copies a dictionary into a case-aware map and
    rejects keys that are case variants of each other.
- **`ServiceRegistry`** (`Registry`). It covers:
  - service registration and unregistration, with increasing service ids;
  - the per-bundle usage counts behind `getService` and `ungetService`;
  - the registration lock that detects cycles;
  - the hook arrays and the service listener chain;
  - `getServiceReferences` and `getUsingBundles`.
  A class `ServiceRegistry` holds the maps as fields. Pure functions (`Get`,
  `Unget`, `Flushed`, ...) state each operation's effect on the in-use map.
  The lemmas prove that the in-use map stays well formed and that n gets
  followed by n ungets restore it.
- **`ModuleImpl`**, a bundle revision in the search policy (`Modules`). It
  covers:
  - the dependent arrays, and how `setWires` maintains them on the exporters;
  - capabilities and requirements gathered from attached fragments;
  - the lazily computed content path from the bundle class path;
  - `getResourceLocal`;
  - boot delegation;
  - the delegation search of `findClassOrResourceByDelegation`, with its
    per-thread cycle check.

Source paths below are relative to the repository root.

## Model

| member | source | states |
|---|---|---|
| Common.IndexOf | lib/osgi/felix/org.apache.felix.framework-1.8.1/src/main/java/org/apache/felix/framework/util/ldap/Parser.java:1218 | String.indexOf as the substring check uses it: the least occurrence at or after the start position, or -1 exactly when there is none |
| Common.Wrap32 | lib/osgi/felix/org.apache.felix.framework-1.8.1/src/main/java/org/apache/felix/framework/util/ldap/Parser.java:1659-1665 | Java `int` arithmetic: the identity inside the 32-bit range, congruent to the exact value modulo 2^32 outside it |
| LdapCompare.JavaCompareTo | lib/osgi/felix/org.apache.felix.framework-1.8.1/src/main/java/org/apache/felix/framework/util/ldap/Parser.java:1319-1334 | String.compareTo, which `>=` and `<=` on strings use: zero exactly when the strings are equal |
| LdapCompare.JavaCompareToAntisymmetric | lib/osgi/felix/org.apache.felix.framework-1.8.1/src/main/java/org/apache/felix/framework/util/ldap/Parser.java:1319-1334 | swapping the two sides negates compareTo, so `>=` and `<=` are mirror images |
| LdapCompare.ParseIntOfIntToString | lib/osgi/felix/org.apache.felix.framework-1.8.1/src/main/java/org/apache/felix/framework/util/ldap/Parser.java:1355-1366 | the right side built by the Integer String constructor reads back every printed int |
| LdapCompare.ParseMinusDigits | lib/osgi/felix/org.apache.felix.framework-1.8.1/src/main/java/org/apache/felix/framework/util/ldap/Parser.java:1355-1366 | a minus sign followed by digits parses to the negated value when it fits in an int |
| LdapCompare.Minimum | lib/osgi/felix/org.apache.felix.framework-1.8.1/src/main/java/org/apache/felix/framework/util/ldap/Parser.java:1799-1812 | the result is at most each argument and is one of them |
| LdapCompare.GetDistance | lib/osgi/felix/org.apache.felix.framework-1.8.1/src/main/java/org/apache/felix/framework/util/ldap/Parser.java:1727-1788 | the matrix loop returns the Levenshtein distance of the two strings, defined independently by its recurrence |
| LdapCompare.FillRow | lib/osgi/felix/org.apache.felix.framework-1.8.1/src/main/java/org/apache/felix/framework/util/ldap/Parser.java:1763-1786 | after the inner loop, row i holds the distances of the first i characters of s to every prefix of t; the other rows are unchanged |
| LdapCompare.DistStep | lib/osgi/felix/org.apache.felix.framework-1.8.1/src/main/java/org/apache/felix/framework/util/ldap/Parser.java:1770-1784 | one matrix cell: the recurrence with cost 0 on equal characters and 1 otherwise |
| LdapCompare.DistSelf | lib/osgi/felix/org.apache.felix.framework-1.8.1/src/main/java/org/apache/felix/framework/util/ldap/Parser.java:1727-1788 | a string is at distance 0 from itself |
| LdapCompare.DistZero | lib/osgi/felix/org.apache.felix.framework-1.8.1/src/main/java/org/apache/felix/framework/util/ldap/Parser.java:1727-1788 | distance 0 only between equal strings (with DistSelf, an if-and-only-if) |
| LdapCompare.DistSymmetric | lib/osgi/felix/org.apache.felix.framework-1.8.1/src/main/java/org/apache/felix/framework/util/ldap/Parser.java:1727-1788 | the distance does not depend on the order of the arguments |
| LdapCompare.DistBounds | lib/osgi/felix/org.apache.felix.framework-1.8.1/src/main/java/org/apache/felix/framework/util/ldap/Parser.java:1727-1788 | the distance lies between the length difference and the longer length |
| LdapCompare.IntApprox | lib/osgi/felix/org.apache.felix.framework-1.8.1/src/main/java/org/apache/felix/framework/util/ldap/Parser.java:1659-1665 | corrected `~=` on Integer: true exactly when the difference is within 10 percent of the left value, computed without overflow |
| LdapCompare.IntApproxReflexive | lib/osgi/felix/org.apache.felix.framework-1.8.1/src/main/java/org/apache/felix/framework/util/ldap/Parser.java:1659-1665 | corrected `~=`: every int is approximately itself |
| LdapCompare.IntApproxAgreesWithoutOverflow | lib/osgi/felix/org.apache.felix.framework-1.8.1/src/main/java/org/apache/felix/framework/util/ldap/Parser.java:1659-1665 | for left values whose bounds cannot overflow, the code as written and the corrected test agree |
| LdapCompare.IntApproxAsWrittenNotReflexive | lib/osgi/felix/org.apache.felix.framework-1.8.1/src/main/java/org/apache/felix/framework/util/ldap/Parser.java:1659-1665 | as written, the 32-bit bounds overflow for 300000000, which is then not approximately itself |
| LdapCompare.StringApproxFacts | lib/osgi/felix/org.apache.felix.framework-1.8.1/src/main/java/org/apache/felix/framework/util/ldap/Parser.java:1680-1686 | `~=` on strings: equal up to case always matches; below 10 characters it matches only then |
| LdapCompare.CompareBoolean | lib/osgi/felix/org.apache.felix.framework-1.8.1/src/main/java/org/apache/felix/framework/util/ldap/Parser.java:1560-1628 | every operator on a Boolean is equality with Boolean(rhs): true exactly when the value equals whether rhs is "true" up to case |
| LdapCompare.BooleanViaComparableDiffers | lib/osgi/felix/org.apache.felix.framework-1.8.1/src/main/java/org/apache/felix/framework/util/ldap/Parser.java:1336-1384 | as written, a Boolean takes the Comparable branch: `(flag>=false)` holds for TRUE and `~=` raises, unlike the Boolean branch |
| LdapCompare.Compare | lib/osgi/felix/org.apache.felix.framework-1.8.1/src/main/java/org/apache/felix/framework/util/ldap/Parser.java:1314-1458 | strings compare by compareTo or approximation, Booleans by equality, an Integer raises an evaluation error exactly when rhs is no int, a Character exactly when rhs is empty; the missing-attribute marker, which is not Comparable and has no String constructor, compares false; the only error is an unconstructible right side |
| LdapCompare.CompareStringsAny | lib/osgi/felix/org.apache.felix.framework-1.8.1/src/main/java/org/apache/felix/framework/util/ldap/Parser.java:1392-1424 | a String[] compares true exactly when some element compares true |
| LdapCompare.CompareAnyMeaning | lib/osgi/felix/org.apache.felix.framework-1.8.1/src/main/java/org/apache/felix/framework/util/ldap/Parser.java:1392-1424 | the element loop over an array or collection: true only at an element that compares true, false exactly when every element compares false, an error only from an element after elements that all compared false |
| LdapCompare.CompareAnyWithoutErrors | lib/osgi/felix/org.apache.felix.framework-1.8.1/src/main/java/org/apache/felix/framework/util/ldap/Parser.java:1392-1424 | when no element raises, the array compares true exactly when some element does |
| LdapCompare.CheckAsWrittenOverlaps | lib/osgi/felix/org.apache.felix.framework-1.8.1/src/main/java/org/apache/felix/framework/util/ldap/Parser.java:1176-1231 | as written, the last piece may overlap earlier ones: `(cn=ab*b)` matches "ab", which has no such split |
| LdapCompare.CheckMeansGlobMatch | lib/osgi/felix/org.apache.felix.framework-1.8.1/src/main/java/org/apache/felix/framework/util/ldap/Parser.java:1176-1231 | the corrected, still non-backtracking search holds exactly when the string is the pieces with arbitrary text between them |
| LdapCompare.CheckAny | lib/osgi/felix/org.apache.felix.framework-1.8.1/src/main/java/org/apache/felix/framework/util/ldap/Parser.java:1155-1168 | a String[] operand matches exactly when some element does |
| LdapSyntax.CompileSimple | lib/osgi/felix/org.apache.felix.framework-1.8.1/src/main/java/org/apache/felix/framework/util/ldap/Parser.java:229-295 | a comparison item compiles to a lone ObjectClassOperator exactly when it is `=` on objectClass (any case) with a plain value |
| LdapSyntax.CompileAllAppend | lib/osgi/felix/org.apache.felix.framework-1.8.1/src/main/java/org/apache/felix/framework/util/ldap/Parser.java:205-220 | the code of a filter list is the code of its filters one after another |
| LdapSyntax.AppendEscaped | lib/osgi/felix/org.apache.felix.framework-1.8.1/src/main/java/org/apache/felix/framework/util/ldap/Parser.java:1459-1479 | the loop appends to the buffer exactly the escaped form of the value |
| LdapSyntax.EscapedAppend | lib/osgi/felix/org.apache.felix.framework-1.8.1/src/main/java/org/apache/felix/framework/util/ldap/Parser.java:1459-1479 | escaping distributes over concatenation |
| LdapSyntax.EscapedHasNoBareSpecial | lib/osgi/felix/org.apache.felix.framework-1.8.1/src/main/java/org/apache/felix/framework/util/ldap/Parser.java:1459-1479 | every `(`, `)` and `*` in escaped text is preceded by a backslash |
| LdapEval.OperandStack.Execute | lib/osgi/felix/org.apache.felix.framework-1.8.1/src/main/java/org/apache/felix/framework/util/ldap/Parser.java:551-1175 | each operator's execute leaves the operand stack as the operator's step function says, or reports the step's exception; after a missing attribute the stack is untouched, after an unsupported type it is one operand shorter; SUBSTRING accepts a String or a String[], and the objectClass cast a String[], not an array of another component type |
| LdapEval.RunProgram | lib/osgi/felix/org.apache.felix.framework-1.8.1/src/main/java/org/apache/felix/framework/FilterImpl.java:155-167 | running the operators in turn on a fresh stack gives the evaluator's answer: a missing attribute makes its item false and the run goes on, any other exception ends it |
| LdapEval.RunOperators | lib/osgi/felix/org.apache.felix.framework-1.8.1/src/main/java/org/apache/felix/framework/FilterImpl.java:155-167 | the evaluator's loop: the operators in turn on a fresh stack, pushing the marker for a missing attribute and false for SUBSTRING on the marker, leaving the stack Run describes or the first other exception |
| LdapEval.AndStackEffect | lib/osgi/felix/org.apache.felix.framework-1.8.1/src/main/java/org/apache/felix/framework/util/ldap/Parser.java:551-577 | AND(n) over n Booleans pops exactly those n and pushes their conjunction |
| LdapEval.OrStackEffect | lib/osgi/felix/org.apache.felix.framework-1.8.1/src/main/java/org/apache/felix/framework/util/ldap/Parser.java:620-646 | OR(n) over n Booleans pops exactly those n and pushes their disjunction |
| LdapEval.AndTooFew | lib/osgi/felix/org.apache.felix.framework-1.8.1/src/main/java/org/apache/felix/framework/util/ldap/Parser.java:551-577 | AND(n) over fewer than n operands fails with the too-few-operands error |
| LdapEval.NotStackEffect | lib/osgi/felix/org.apache.felix.framework-1.8.1/src/main/java/org/apache/felix/framework/util/ldap/Parser.java:687-697 | NOT pops one Boolean and pushes its negation |
| LdapEval.PresentStackEffect | lib/osgi/felix/org.apache.felix.framework-1.8.1/src/main/java/org/apache/felix/framework/util/ldap/Parser.java:1026-1032 | PRESENT pushes whether the attribute is defined |
| LdapEval.PushStackEffect | lib/osgi/felix/org.apache.felix.framework-1.8.1/src/main/java/org/apache/felix/framework/util/ldap/Parser.java:1060-1072 | PUSH fails exactly on an undefined attribute and otherwise pushes its value |
| LdapEval.MissingAttributeRecovery | lib/osgi/felix/org.apache.felix.framework-1.8.1/src/main/java/org/apache/felix/framework/util/ldap/Parser.java:1060-1172 | a missing attribute leaves the marker on the stack; a comparison on it pushes false, and SUBSTRING's unsupported-type exception on it is caught as false |
| LdapEval.RunAppend | lib/osgi/felix/org.apache.felix.framework-1.8.1/src/main/java/org/apache/felix/framework/util/ldap/Parser.java:118-132 | running two programs in sequence is running their concatenation |
| LdapEval.CompileCorrect | lib/osgi/felix/org.apache.felix.framework-1.8.1/src/main/java/org/apache/felix/framework/util/ldap/Parser.java:137-295 | the code the parser emits for any filter, run on any stack, pushes exactly the filter's truth value and leaves the stack below alone, or raises the exception the filter's evaluation raises |
| LdapEval.EvaluateCompiled | lib/osgi/felix/org.apache.felix.framework-1.8.1/src/main/java/org/apache/felix/framework/util/ldap/Parser.java:118-132 | evaluating a parsed program answers what the filter's independent meaning says, in which an item on a missing attribute is false and the filter's other items still count |
| LdapParser.FilterF | lib/osgi/felix/org.apache.felix.framework-1.8.1/src/main/java/org/apache/felix/framework/util/ldap/Parser.java:137-154 | filter: no `(` is no filter (whitespace consumed); a parsed filter consumes at least its parentheses |
| LdapParser.ClassifyRules | lib/osgi/felix/org.apache.felix.framework-1.8.1/src/main/java/org/apache/felix/framework/util/ldap/Parser.java:498-516 | no pieces is PRESENT, one unstarred piece is SIMPLE, and otherwise SUBSTRING with "" anchoring a leading or trailing star |
| LdapParser.TrimEnd | lib/osgi/felix/org.apache.felix.framework-1.8.1/src/main/java/org/apache/felix/framework/util/ldap/Parser.java:362-368 | trailing-blank removal never removes the first character and yields a prefix of the buffer |
| LdapParser.TrimTrailing | lib/osgi/felix/org.apache.felix.framework-1.8.1/src/main/java/org/apache/felix/framework/util/ldap/Parser.java:362-368 | the trimming loop computes TrimEnd |
| LdapParser.Parser.Start | lib/osgi/felix/org.apache.felix.framework-1.8.1/src/main/java/org/apache/felix/framework/util/ldap/Parser.java:118-132 | start: a syntax error, an empty expression, or the whole program of the parsed filter appended |
| LdapParser.Parser.Filter | lib/osgi/felix/org.apache.felix.framework-1.8.1/src/main/java/org/apache/felix/framework/util/ldap/Parser.java:137-154 | the imperative filter agrees with FilterF: same error, same position, program extended by the filter's code |
| LdapParser.Parser.FilterComp | lib/osgi/felix/org.apache.felix.framework-1.8.1/src/main/java/org/apache/felix/framework/util/ldap/Parser.java:162-202 | filtercomp agrees with FilterCompF, including a `&`, `|` or `!` without operands starting an item |
| LdapParser.Parser.CompHead | lib/osgi/felix/org.apache.felix.framework-1.8.1/src/main/java/org/apache/felix/framework/util/ldap/Parser.java:165-199 | the part of filtercomp before its call of item agrees with HeadF |
| LdapParser.Parser.Compound | lib/osgi/felix/org.apache.felix.framework-1.8.1/src/main/java/org/apache/felix/framework/util/ldap/Parser.java:168-181 | the `&`/`|` branch: the list is read and AND/OR(count) appended when the list is not empty |
| LdapParser.Parser.Negation | lib/osgi/felix/org.apache.felix.framework-1.8.1/src/main/java/org/apache/felix/framework/util/ldap/Parser.java:182-190 | the `!` branch: NOT appended when a filter follows |
| LdapParser.Parser.FilterList | lib/osgi/felix/org.apache.felix.framework-1.8.1/src/main/java/org/apache/felix/framework/util/ldap/Parser.java:207-220 | filterlist reads as many filters as follow one another and appends their code in order |
| LdapParser.Parser.Item | lib/osgi/felix/org.apache.felix.framework-1.8.1/src/main/java/org/apache/felix/framework/util/ldap/Parser.java:229-295 | item agrees with ItemF: the attribute, operator and right side and the code emitted for them |
| LdapParser.Parser.GenerateSubStringCode | lib/osgi/felix/org.apache.felix.framework-1.8.1/src/main/java/org/apache/felix/framework/util/ldap/Parser.java:300-311 | appends PUSH of the attribute, then SUBSTRING of the pieces |
| LdapParser.Parser.Attribute | lib/osgi/felix/org.apache.felix.framework-1.8.1/src/main/java/org/apache/felix/framework/util/ldap/Parser.java:321-370 | attribute agrees with AttributeF: no name when a delimiter or EOF comes first, else the text up to the next delimiter, trimmed |
| LdapParser.Parser.EqualOp | lib/osgi/felix/org.apache.felix.framework-1.8.1/src/main/java/org/apache/felix/framework/util/ldap/Parser.java:379-405 | equalop agrees with EqualOpF: `=`, `~=`, `>=`, `<=`, or no operator |
| LdapParser.Parser.Substring | lib/osgi/felix/org.apache.felix.framework-1.8.1/src/main/java/org/apache/felix/framework/util/ldap/Parser.java:418-517 | substring agrees with SubstringF, the lexer left at the closing `)` |
| LdapInfix.BuildStep | lib/osgi/felix/org.apache.felix.framework-1.8.1/src/main/java/org/apache/felix/framework/util/ldap/Parser.java:583-597 | buildTree of one operator: defined exactly when the stack holds its arity, replacing that many subtrees by one |
| LdapInfix.BuildCompiled | lib/osgi/felix/org.apache.felix.framework-1.8.1/src/main/java/org/apache/felix/framework/util/ldap/Parser.java:583-1272 | buildTree over the program of any filter pushes exactly that filter's tree |
| LdapInfix.InfixTree | lib/osgi/felix/org.apache.felix.framework-1.8.1/src/main/java/org/apache/felix/framework/util/ldap/Parser.java:599-1290 | the corrected printer prints the tree of any filter as the filter's text |
| LdapInfix.ProgramTextOfCompiled | lib/osgi/felix/org.apache.felix.framework-1.8.1/src/main/java/org/apache/felix/framework/FilterImpl.java:238-245 | toString of a parsed program is the filter's text |
| LdapInfix.InfixAgreesWithoutSpecials | lib/osgi/felix/org.apache.felix.framework-1.8.1/src/main/java/org/apache/felix/framework/util/ldap/Parser.java:762-766 | the printer as written and the corrected one differ only on an objectClass target holding a special character |
| LdapInfix.ObjectClassTextAsWritten | lib/osgi/felix/org.apache.felix.framework-1.8.1/src/main/java/org/apache/felix/framework/util/ldap/Parser.java:762-766 | as written, `(objectClass=\()` prints back as `(objectClass=()` |
| LdapInfix.ObjectClassTextUnparsable | lib/osgi/felix/org.apache.felix.framework-1.8.1/src/main/java/org/apache/felix/framework/util/ldap/Parser.java:762-766 | that printed text is a syntax error to the parser |
| LdapRoundTrip.ParsePrinted | lib/osgi/felix/org.apache.felix.framework-1.8.1/src/main/java/org/apache/felix/framework/util/ldap/Parser.java:118-132 | round trip: the text of every well-formed filter parses to that filter |
| LdapRoundTrip.FilterText | lib/osgi/felix/org.apache.felix.framework-1.8.1/src/main/java/org/apache/felix/framework/util/ldap/Parser.java:137-154 | filter reads back a printed filter embedded at any position |
| LdapRoundTrip.ListText | lib/osgi/felix/org.apache.felix.framework-1.8.1/src/main/java/org/apache/felix/framework/util/ldap/Parser.java:207-220 | filterlist reads back a printed list followed by `)` |
| LdapRoundTrip.ItemText | lib/osgi/felix/org.apache.felix.framework-1.8.1/src/main/java/org/apache/felix/framework/util/ldap/Parser.java:229-295 | item reads back a printed item, also when filtercomp has consumed its first character |
| LdapRoundTrip.SubstringSimple | lib/osgi/felix/org.apache.felix.framework-1.8.1/src/main/java/org/apache/felix/framework/util/ldap/Parser.java:418-517 | substring reads an escaped plain value back as that value |
| LdapRoundTrip.SubstringPresent | lib/osgi/felix/org.apache.felix.framework-1.8.1/src/main/java/org/apache/felix/framework/util/ldap/Parser.java:418-517 | substring reads a lone star back as a presence test |
| LdapRoundTrip.SubstringPieces | lib/osgi/felix/org.apache.felix.framework-1.8.1/src/main/java/org/apache/felix/framework/util/ldap/Parser.java:418-517 | substring reads joined escaped pieces back as the same pieces |
| LdapRoundTrip.EqualOpText | lib/osgi/felix/org.apache.felix.framework-1.8.1/src/main/java/org/apache/felix/framework/util/ldap/Parser.java:379-405 | equalop reads each printed operator back |
| LdapRoundTrip.AttributeText | lib/osgi/felix/org.apache.felix.framework-1.8.1/src/main/java/org/apache/felix/framework/util/ldap/Parser.java:321-370 | attribute reads a printed attribute back |
| FrameworkFilter.ProgramCache.Get | lib/osgi/felix/org.apache.felix.framework-1.8.1/src/main/java/org/apache/felix/framework/FilterImpl.java:62-65 | the cached program of an expression, none when absent |
| FrameworkFilter.ProgramCache.PutIfAbsent | lib/osgi/felix/org.apache.felix.framework-1.8.1/src/main/java/org/apache/felix/framework/FilterImpl.java:89-96 | inserts only when the expression is still absent |
| FrameworkFilter.NewFilter | lib/osgi/felix/org.apache.felix.framework-1.8.1/src/main/java/org/apache/felix/framework/FilterImpl.java:54-99 | null is an error leaving the cache alone; a syntax error likewise; otherwise the parsed program, cached under the expression |
| FrameworkFilter.FilterImpl.ToString | lib/osgi/felix/org.apache.felix.framework-1.8.1/src/main/java/org/apache/felix/framework/FilterImpl.java:238-245 | the text of the program, computed once and kept |
| FrameworkFilter.FilterImpl.Equals | lib/osgi/felix/org.apache.felix.framework-1.8.1/src/main/java/org/apache/felix/framework/FilterImpl.java:108-119 | true exactly for a filter with the same text |
| FrameworkFilter.FilterImpl.HashCode | lib/osgi/felix/org.apache.felix.framework-1.8.1/src/main/java/org/apache/felix/framework/FilterImpl.java:125-128 | the Java string hash of the text |
| FrameworkFilter.FilterImpl.Match | lib/osgi/felix/org.apache.felix.framework-1.8.1/src/main/java/org/apache/felix/framework/FilterImpl.java:130-198 | the evaluator's answer on the mapped source, an item on a missing attribute counting as false within the filter, false on an evaluation error the evaluator does not recover from, an error on case-variant keys; with neither a dictionary nor a reference, the no-source outcome |
| FrameworkFilter.FilterImpl.MatchNoSource | lib/osgi/felix/org.apache.felix.framework-1.8.1/src/main/java/org/apache/felix/framework/FilterImpl.java:155-176 | with neither source, the operators before the first lookup run, and that lookup throws the NullPointerException unless one of them threw first |
| FrameworkFilter.FilterImpl.MatchDictionary | lib/osgi/felix/org.apache.felix.framework-1.8.1/src/main/java/org/apache/felix/framework/FilterImpl.java:210-214 | match with case-insensitive keys, an item on a missing attribute counting as false; a null dictionary is no source |
| FrameworkFilter.FilterImpl.MatchReference | lib/osgi/felix/org.apache.felix.framework-1.8.1/src/main/java/org/apache/felix/framework/FilterImpl.java:224-227 | match against a service's properties, an item on a missing property counting as false; a null reference is no source |
| FrameworkFilter.FilterImpl.MatchCase | lib/osgi/felix/org.apache.felix.framework-1.8.1/src/main/java/org/apache/felix/framework/FilterImpl.java:229-232 | match with case-sensitive keys, an item on a missing attribute counting as false; a null dictionary is no source |
| FrameworkFilter.SimpleMapper.SetReference | lib/osgi/felix/org.apache.felix.framework-1.8.1/src/main/java/org/apache/felix/framework/FilterImpl.java:264-268 | the reference becomes the source and the map is dropped |
| FrameworkFilter.SimpleMapper.SetSourceNone | lib/osgi/felix/org.apache.felix.framework-1.8.1/src/main/java/org/apache/felix/framework/FilterImpl.java:270-305 | a null dictionary leaves an empty map with the given case rule |
| FrameworkFilter.SimpleMapper.SetSource | lib/osgi/felix/org.apache.felix.framework-1.8.1/src/main/java/org/apache/felix/framework/FilterImpl.java:270-305 | copies the dictionary into an emptied map, stopping with an error at a case variant of a key already put |
| FrameworkFilter.SimpleMapper.AsLookup | lib/osgi/felix/org.apache.felix.framework-1.8.1/src/main/java/org/apache/felix/framework/FilterImpl.java:307-314 | lookup answers from the map, else from the reference |
| FrameworkFilter.FillStops | lib/osgi/felix/org.apache.felix.framework-1.8.1/src/main/java/org/apache/felix/framework/FilterImpl.java:287-303 | the copy loop stops exactly when a key is already in the map or has a case variant earlier in the dictionary |
| FrameworkFilter.FillValues | lib/osgi/felix/org.apache.felix.framework-1.8.1/src/main/java/org/apache/felix/framework/FilterImpl.java:287-303 | when the loop does not stop, every key looks up its own value |
| FrameworkFilter.CopyStops | lib/osgi/felix/org.apache.felix.framework-1.8.1/src/main/java/org/apache/felix/framework/FilterImpl.java:270-305 | setSource fails exactly on case-variant keys, and never when case-sensitive |
| FrameworkFilter.CopyValues | lib/osgi/felix/org.apache.felix.framework-1.8.1/src/main/java/org/apache/felix/framework/FilterImpl.java:270-305 | each key, in any case the map accepts, looks up its value |
| FrameworkFilter.CopyOthers | lib/osgi/felix/org.apache.felix.framework-1.8.1/src/main/java/org/apache/felix/framework/FilterImpl.java:307-314 | a name filed unlike every key finds nothing |
| FrameworkFilter.MatchCompiled | lib/osgi/felix/org.apache.felix.framework-1.8.1/src/main/java/org/apache/felix/framework/FilterImpl.java:130-198 | match of a parsed filter on a dictionary: an error exactly on case-variant keys, otherwise the filter's meaning on the copied map |
| FrameworkFilter.MissingAttributeIsNoMatch | lib/osgi/felix/org.apache.felix.framework-1.8.1/src/main/java/org/apache/felix/framework/FilterImpl.java:155-176 | a comparison or substring item on an attribute the dictionary lacks is no match, not an error, and its negation matches |
| FrameworkFilter.OrOverMissingAttribute | lib/osgi/felix/org.apache.felix.framework-1.8.1/src/main/java/org/apache/felix/framework/FilterImpl.java:155-176 | `(|(a=1)(b=2))` matches {b: "2"}: the missing a counts as false and the other branch decides |
| FrameworkFilter.OrOverOtherValues | lib/osgi/felix/org.apache.felix.framework-1.8.1/src/main/java/org/apache/felix/framework/FilterImpl.java:155-176 | `(|(a=1)(b=2))` does not match {a: "3", b: "5"} |
| FrameworkFilter.NotOverMissingAttribute | lib/osgi/felix/org.apache.felix.framework-1.8.1/src/main/java/org/apache/felix/framework/FilterImpl.java:155-176 | `(!(a=1))` matches a dictionary without a |
| FrameworkFilter.LookupIgnoresCase | lib/osgi/felix/org.apache.felix.framework-1.8.1/src/main/java/org/apache/felix/framework/FilterImpl.java:307-314 | a case-insensitive map answers every case variant of a name alike |
| FrameworkFilter.SameTextSameFilter | lib/osgi/felix/org.apache.felix.framework-1.8.1/src/main/java/org/apache/felix/framework/FilterImpl.java:108-119 | well-formed filters with the same text are the same filter; it says nothing about parsed filters that are not well formed, such as objectClass spelled in another case |
| FrameworkFilter.FirstLookup | lib/osgi/felix/org.apache.felix.framework-1.8.1/src/main/java/org/apache/felix/framework/FilterImpl.java:307-313 | the position of the first operator that asks the mapper for an attribute, none before it |
| FrameworkFilter.CompiledStartsWithLookup | lib/osgi/felix/org.apache.felix.framework-1.8.1/src/main/java/org/apache/felix/framework/FilterImpl.java:307-313 | the code of a well-formed filter starts with an attribute lookup |
| FrameworkFilter.NoSourceThrows | lib/osgi/felix/org.apache.felix.framework-1.8.1/src/main/java/org/apache/felix/framework/FilterImpl.java:155-176 | matching any well-formed filter's code against no source throws the NullPointerException |
| FrameworkFilter.ConstructPrinted | lib/osgi/felix/org.apache.felix.framework-1.8.1/src/main/java/org/apache/felix/framework/FilterImpl.java:54-99 | a filter built from the text of a well-formed filter has that filter's program and prints back the same text |
| Registry.RemoveEntry | lib/osgi/felix/org.apache.felix.framework-1.8.1/src/main/java/org/apache/felix/framework/ServiceRegistry.java:526-553 | the copy loop drops the element with the key (all of them on distinct keys) and keeps an array without it |
| Registry.WithoutAt | lib/osgi/felix/org.apache.felix.framework-1.8.1/src/main/java/org/apache/felix/framework/ServiceRegistry.java:526-553 | with distinct keys, exactly the one element with the key goes |
| Registry.WithoutDistinct | lib/osgi/felix/org.apache.felix.framework-1.8.1/src/main/java/org/apache/felix/framework/ServiceRegistry.java:526-553 | removal keeps keys distinct |
| Registry.Find | lib/osgi/felix/org.apache.felix.framework-1.8.1/src/main/java/org/apache/felix/framework/ServiceRegistry.java:638-649 | the record found is in the array and has the reference; none exactly when no record has it |
| Registry.UsageOfAdded | lib/osgi/felix/org.apache.felix.framework-1.8.1/src/main/java/org/apache/felix/framework/ServiceRegistry.java:661-683 | an added record is found with count 1, and nothing else changes |
| Registry.UsageOfAdjusted | lib/osgi/felix/org.apache.felix.framework-1.8.1/src/main/java/org/apache/felix/framework/ServiceRegistry.java:233-431 | counting up or down changes exactly the one record's count |
| Registry.UsageOfFlushed | lib/osgi/felix/org.apache.felix.framework-1.8.1/src/main/java/org/apache/felix/framework/ServiceRegistry.java:697-732 | flushing removes exactly the one record |
| Registry.FlushedAdjusted | lib/osgi/felix/org.apache.felix.framework-1.8.1/src/main/java/org/apache/felix/framework/ServiceRegistry.java:392-402 | counting a record down and then flushing it is just flushing it |
| Registry.TableGet | lib/osgi/felix/org.apache.felix.framework-1.8.1/src/main/java/org/apache/felix/framework/ServiceRegistry.java:233-343 | getService keeps the in-use map well formed: distinct references per bundle and positive counts |
| Registry.TableUnget | lib/osgi/felix/org.apache.felix.framework-1.8.1/src/main/java/org/apache/felix/framework/ServiceRegistry.java:345-431 | ungetService keeps the in-use map well formed |
| Registry.GetOthers | lib/osgi/felix/org.apache.felix.framework-1.8.1/src/main/java/org/apache/felix/framework/ServiceRegistry.java:233-343 | getService touches no other bundle or service record |
| Registry.GetInvalid | lib/osgi/felix/org.apache.felix.framework-1.8.1/src/main/java/org/apache/felix/framework/ServiceRegistry.java:233-343 | on an unregistered service getService answers null and leaves no record |
| Registry.GetCached | lib/osgi/felix/org.apache.felix.framework-1.8.1/src/main/java/org/apache/felix/framework/ServiceRegistry.java:284-296 | a cached object is returned again and its count goes up by one |
| Registry.GetFetched | lib/osgi/felix/org.apache.felix.framework-1.8.1/src/main/java/org/apache/felix/framework/ServiceRegistry.java:303-330 | without a record, a non-null object from the factory is cached with count 1 |
| Registry.UngetOthers | lib/osgi/felix/org.apache.felix.framework-1.8.1/src/main/java/org/apache/felix/framework/ServiceRegistry.java:345-431 | ungetService touches no other bundle or service record |
| Registry.UngetCounted | lib/osgi/felix/org.apache.felix.framework-1.8.1/src/main/java/org/apache/felix/framework/ServiceRegistry.java:392-430 | above one, an unget counts down and answers true |
| Registry.UngetLast | lib/osgi/felix/org.apache.felix.framework-1.8.1/src/main/java/org/apache/felix/framework/ServiceRegistry.java:392-430 | at one, an unget flushes the record and answers false (or reports a failing factory) |
| Registry.UngetInvalid | lib/osgi/felix/org.apache.felix.framework-1.8.1/src/main/java/org/apache/felix/framework/ServiceRegistry.java:385-430 | on an unregistered service an unget flushes the record and answers true |
| Registry.UngetFalseDrains | lib/osgi/felix/org.apache.felix.framework-1.8.1/src/main/java/org/apache/felix/framework/ServiceRegistry.java:345-431 | an unget that answers false leaves no record |
| Registry.UngetTrueShrinks | lib/osgi/felix/org.apache.felix.framework-1.8.1/src/main/java/org/apache/felix/framework/ServiceRegistry.java:345-431 | an unget that answers true has brought the count down |
| Registry.UngetTrueCounts | lib/osgi/felix/org.apache.felix.framework-1.8.1/src/main/java/org/apache/felix/framework/ServiceRegistry.java:392-430 | on a valid registration, an unget answering true counts down by exactly one and leaves at least one |
| Registry.GetsThenUngets | lib/osgi/felix/org.apache.felix.framework-1.8.1/src/main/java/org/apache/felix/framework/ServiceRegistry.java:233-431 | n gets by a new user give count n; n ungets restore the in-use map exactly; one more unget answers false and changes nothing |
| Registry.GetsThenUngetsAnswers | lib/osgi/felix/org.apache.felix.framework-1.8.1/src/main/java/org/apache/felix/framework/ServiceRegistry.java:233-431 | each of the n gets returns the object; the first n-1 ungets answer true and the n-th false |
| Registry.IsHook | lib/osgi/felix/org.apache.felix.framework-1.8.1/src/main/java/org/apache/felix/framework/ServiceRegistry.java:769-783 | a hook exactly when the object implements the hook interface and the registration names it |
| Registry.RemoveFirst | lib/osgi/felix/org.apache.felix.framework-1.8.1/src/main/java/org/apache/felix/framework/ServiceRegistry.java:812-845 | corrected removeFromArray: one element shorter when present, unchanged when absent |
| Registry.RemoveFirstAt | lib/osgi/felix/org.apache.felix.framework-1.8.1/src/main/java/org/apache/felix/framework/ServiceRegistry.java:812-845 | removal keeps everything before and after the first occurrence, in order |
| Registry.RemoveFirstMultiset | lib/osgi/felix/org.apache.felix.framework-1.8.1/src/main/java/org/apache/felix/framework/ServiceRegistry.java:812-845 | removal takes away exactly one occurrence and nothing else |
| Registry.RemoveFirstAdded | lib/osgi/felix/org.apache.felix.framework-1.8.1/src/main/java/org/apache/felix/framework/ServiceRegistry.java:734-845 | a hook added and then removed leaves the array as it was |
| Registry.RemoveFromArray | lib/osgi/felix/org.apache.felix.framework-1.8.1/src/main/java/org/apache/felix/framework/ServiceRegistry.java:812-845 | the corrected copy loop computes RemoveFirst |
| Registry.FirstHit | lib/osgi/felix/org.apache.felix.framework-1.8.1/src/main/java/org/apache/felix/framework/ServiceRegistry.java:816-824 | the search stops at the first null or matching element |
| Registry.RemoveFromArrayAsWritten | lib/osgi/felix/org.apache.felix.framework-1.8.1/src/main/java/org/apache/felix/framework/ServiceRegistry.java:812-845 | the copies as written, including the null-element failure |
| Registry.AsWrittenLosesPrefix | lib/osgi/felix/org.apache.felix.framework-1.8.1/src/main/java/org/apache/felix/framework/ServiceRegistry.java:812-845 | as written, removing a hook that is not first turns the first hook into null |
| Registry.AsWrittenThenThrows | lib/osgi/felix/org.apache.felix.framework-1.8.1/src/main/java/org/apache/felix/framework/ServiceRegistry.java:812-845 | once a null is at the front, every later removal fails |
| Registry.AsWrittenExample | lib/osgi/felix/org.apache.felix.framework-1.8.1/src/main/java/org/apache/felix/framework/ServiceRegistry.java:812-845 | hooks [1, 2]: removing 2 leaves [null], then removing 1 fails |
| Registry.AddListener | lib/osgi/felix/org.apache.felix.framework-1.8.1/src/main/java/org/apache/felix/framework/ServiceRegistry.java:596-611 | chaining listeners: a null side gives the other, and the chain lists a's listeners then b's |
| Registry.RemoveListenerFlat | lib/osgi/felix/org.apache.felix.framework-1.8.1/src/main/java/org/apache/felix/framework/ServiceRegistry.java:612-628 | removing a listener drops every occurrence and keeps the rest in order |
| Registry.RemoveNothing | lib/osgi/felix/org.apache.felix.framework-1.8.1/src/main/java/org/apache/felix/framework/ServiceRegistry.java:612-628 | removing null rebuilds the same chain |
| Registry.AppendFresh | lib/osgi/felix/org.apache.felix.framework-1.8.1/src/main/java/org/apache/felix/framework/ServiceRegistry.java:509-524 | appending a fresh id keeps a bundle's registration array duplicate-free |
| Registry.ServiceRegistry.constructor | lib/osgi/felix/org.apache.felix.framework-1.8.1/src/main/java/org/apache/felix/framework/ServiceRegistry.java:49-52 | an empty registry whose next service id is 1 |
| Registry.ServiceRegistry.AddHooks | lib/osgi/felix/org.apache.felix.framework-1.8.1/src/main/java/org/apache/felix/framework/ServiceRegistry.java:734-759 | every hook array gains the object exactly when it is that kind of hook |
| Registry.ServiceRegistry.RemoveHook | lib/osgi/felix/org.apache.felix.framework-1.8.1/src/main/java/org/apache/felix/framework/ServiceRegistry.java:785-810 | every hook array the object's interfaces name loses its first occurrence; the others are unchanged |
| Registry.ServiceRegistry.RegisterService | lib/osgi/felix/org.apache.felix.framework-1.8.1/src/main/java/org/apache/felix/framework/ServiceRegistry.java:69-88 | a fresh id, one more than the last, a registration appended to its bundle's array, hooks recorded; the registry invariant kept |
| Registry.ServiceRegistry.AddRegistration | lib/osgi/felix/org.apache.felix.framework-1.8.1/src/main/java/org/apache/felix/framework/ServiceRegistry.java:509-524 | the id handed out is new, the registration recorded under it and appended to its bundle's array |
| Registry.ServiceRegistry.GetUsageCount | lib/osgi/felix/org.apache.felix.framework-1.8.1/src/main/java/org/apache/felix/framework/ServiceRegistry.java:638-649 | the position of the bundle's first record for the service, -1 exactly when there is none |
| Registry.ServiceRegistry.AddUsageCount | lib/osgi/felix/org.apache.felix.framework-1.8.1/src/main/java/org/apache/felix/framework/ServiceRegistry.java:661-683 | appends a record with count 1 for the new object |
| Registry.ServiceRegistry.CountUsage | lib/osgi/felix/org.apache.felix.framework-1.8.1/src/main/java/org/apache/felix/framework/ServiceRegistry.java:293 | counts the found record up or down, all else unchanged |
| Registry.ServiceRegistry.FlushUsageCount | lib/osgi/felix/org.apache.felix.framework-1.8.1/src/main/java/org/apache/felix/framework/ServiceRegistry.java:697-732 | removes the bundle's record, and the bundle's entry with its last record |
| Registry.ServiceRegistry.GetService | lib/osgi/felix/org.apache.felix.framework-1.8.1/src/main/java/org/apache/felix/framework/ServiceRegistry.java:233-343 | a cycle is reported, a lock by another thread blocks; otherwise the in-use map and answer are Get's, and the lock map is restored |
| Registry.ServiceRegistry.UngetService | lib/osgi/felix/org.apache.felix.framework-1.8.1/src/main/java/org/apache/felix/framework/ServiceRegistry.java:345-431 | the same guard; otherwise the in-use map and answer are Unget's, and the lock map is restored |
| Registry.ServiceRegistry.GetUsingBundles | lib/osgi/felix/org.apache.felix.framework-1.8.1/src/main/java/org/apache/felix/framework/ServiceRegistry.java:469-497 | null exactly when no bundle uses the service, else exactly the bundles that do |
| Registry.ServiceRegistry.UngetAll | lib/osgi/felix/org.apache.felix.framework-1.8.1/src/main/java/org/apache/felix/framework/ServiceRegistry.java:117-118 | ungets until false: the bundle no longer uses the service, and no other record changed |
| Registry.ServiceRegistry.UngetClients | lib/osgi/felix/org.apache.felix.framework-1.8.1/src/main/java/org/apache/felix/framework/ServiceRegistry.java:114-119 | drains every client: afterwards nobody uses the service, other services untouched |
| Registry.ServiceRegistry.UnregisterService | lib/osgi/felix/org.apache.felix.framework-1.8.1/src/main/java/org/apache/felix/framework/ServiceRegistry.java:90-123 | hooks removed, registration taken out of its bundle's array, every user drained, registration invalidated; or the cycle/blocked outcome with nothing drained |
| Registry.ServiceRegistry.RemoveServiceRegistration | lib/osgi/felix/org.apache.felix.framework-1.8.1/src/main/java/org/apache/felix/framework/ServiceRegistry.java:526-553 | the bundle's array loses the registration |
| Registry.ServiceRegistry.ForceUnget | lib/osgi/felix/org.apache.felix.framework-1.8.1/src/main/java/org/apache/felix/framework/ServiceRegistry.java:112-122 | the forced unget drains all users of the service and nothing else |
| Registry.ServiceRegistry.GetServiceReferences | lib/osgi/felix/org.apache.felix.framework-1.8.1/src/main/java/org/apache/felix/framework/ServiceRegistry.java:162-216 | exactly the registered services whose objectClass names the class (any when null) and that the filter matches (any when null), each once, since no two bundles' arrays share a registration |
| Registry.ServiceRegistry.Matches | lib/osgi/felix/org.apache.felix.framework-1.8.1/src/main/java/org/apache/felix/framework/ServiceRegistry.java:179-205 | the match test for one registration is Selects |
| Registry.ServiceRegistry.AddServiceListener | lib/osgi/felix/org.apache.felix.framework-1.8.1/src/main/java/org/apache/felix/framework/ServiceRegistry.java:555-558 | the listener is chained after the present ones |
| Registry.ServiceRegistry.RemoveServiceListener | lib/osgi/felix/org.apache.felix.framework-1.8.1/src/main/java/org/apache/felix/framework/ServiceRegistry.java:560-563 | every occurrence of the listener leaves the chain |
| Modules.WithDependentMembers | lib/osgi/felix/org.apache.felix.framework-1.8.1/src/main/java/org/apache/felix/framework/searchpolicy/ModuleImpl.java:1097-1111 | addDependent keeps an array duplicate-free and adds nothing but the module |
| Modules.WithoutDependentMembers | lib/osgi/felix/org.apache.felix.framework-1.8.1/src/main/java/org/apache/felix/framework/searchpolicy/ModuleImpl.java:1113-1142 | removeDependent on a duplicate-free array removes the module and keeps every other |
| Modules.WithoutDependentAt | lib/osgi/felix/org.apache.felix.framework-1.8.1/src/main/java/org/apache/felix/framework/searchpolicy/ModuleImpl.java:1113-1142 | removal copies around the first occurrence |
| Modules.WithThenWithout | lib/osgi/felix/org.apache.felix.framework-1.8.1/src/main/java/org/apache/felix/framework/searchpolicy/ModuleImpl.java:1097-1142 | adding an absent module and removing it again restores the array |
| Modules.AddDependent | lib/osgi/felix/org.apache.felix.framework-1.8.1/src/main/java/org/apache/felix/framework/searchpolicy/ModuleImpl.java:1097-1111 | the scan-and-append loop computes WithDependent |
| Modules.RemoveDependent | lib/osgi/felix/org.apache.felix.framework-1.8.1/src/main/java/org/apache/felix/framework/searchpolicy/ModuleImpl.java:1113-1142 | the scan-and-copy loop computes WithoutDependent |
| Modules.ModuleImpl.constructor | lib/osgi/felix/org.apache.felix.framework-1.8.1/src/main/java/org/apache/felix/framework/searchpolicy/ModuleImpl.java:139-199 | a module with the given content, headers and fragments, no wires, no content path, no dependents |
| Modules.ModuleImpl.AddDependentHost | lib/osgi/felix/org.apache.felix.framework-1.8.1/src/main/java/org/apache/felix/framework/searchpolicy/ModuleImpl.java:1032-1035 | the host array after addDependent |
| Modules.ModuleImpl.RemoveDependentHost | lib/osgi/felix/org.apache.felix.framework-1.8.1/src/main/java/org/apache/felix/framework/searchpolicy/ModuleImpl.java:1037-1040 | the host array after removeDependent |
| Modules.ModuleImpl.AddDependentImporter | lib/osgi/felix/org.apache.felix.framework-1.8.1/src/main/java/org/apache/felix/framework/searchpolicy/ModuleImpl.java:1047-1050 | the importer array after addDependent |
| Modules.ModuleImpl.RemoveDependentImporter | lib/osgi/felix/org.apache.felix.framework-1.8.1/src/main/java/org/apache/felix/framework/searchpolicy/ModuleImpl.java:1052-1055 | the importer array after removeDependent |
| Modules.ModuleImpl.AddDependentRequirer | lib/osgi/felix/org.apache.felix.framework-1.8.1/src/main/java/org/apache/felix/framework/searchpolicy/ModuleImpl.java:1062-1065 | the requirer array after addDependent |
| Modules.ModuleImpl.RemoveDependentRequirer | lib/osgi/felix/org.apache.felix.framework-1.8.1/src/main/java/org/apache/felix/framework/searchpolicy/ModuleImpl.java:1067-1070 | the requirer array after removeDependent |
| Modules.ModuleImpl.GetDependents | lib/osgi/felix/org.apache.felix.framework-1.8.1/src/main/java/org/apache/felix/framework/searchpolicy/ModuleImpl.java:1072-1095 | hosts, then importers, then requirers, each in its own order; a module is a dependent exactly when it is in one of the three |
| Modules.Rewired | lib/osgi/felix/org.apache.felix.framework-1.8.1/src/main/java/org/apache/felix/framework/searchpolicy/ModuleImpl.java:321-352 | after setWires this module is listed by an exporter exactly when a new wire of the namespace points at it, or it was listed and no old wire did; other modules stay; no duplicates |
| Modules.UnwiredUntouched | lib/osgi/felix/org.apache.felix.framework-1.8.1/src/main/java/org/apache/felix/framework/searchpolicy/ModuleImpl.java:321-352 | wires to other modules or namespaces leave an exporter's array alone |
| Modules.ModuleImpl.SetWires | lib/osgi/felix/org.apache.felix.framework-1.8.1/src/main/java/org/apache/felix/framework/searchpolicy/ModuleImpl.java:321-352 | the wires are replaced and every old or new exporter's importer and requirer arrays are the old ones unlinked from the old wires and linked to the new |
| Modules.ModuleImpl.Unwire | lib/osgi/felix/org.apache.felix.framework-1.8.1/src/main/java/org/apache/felix/framework/searchpolicy/ModuleImpl.java:326-336 | the first loop: the arrays of every exporter after unlinking the old wires |
| Modules.ModuleImpl.Rewire | lib/osgi/felix/org.apache.felix.framework-1.8.1/src/main/java/org/apache/felix/framework/searchpolicy/ModuleImpl.java:341-351 | the second loop: the arrays of every exporter after linking the new wires |
| Modules.GatheredMember | lib/osgi/felix/org.apache.felix.framework-1.8.1/src/main/java/org/apache/felix/framework/searchpolicy/ModuleImpl.java:230-295 | an element is gathered exactly when it is accepted and in some fragment's list |
| Modules.Gather | lib/osgi/felix/org.apache.felix.framework-1.8.1/src/main/java/org/apache/felix/framework/searchpolicy/ModuleImpl.java:230-295 | the shared loop: the module's own list followed by the accepted entries of each fragment, in fragment order |
| Modules.ModuleImpl.GetCapabilities | lib/osgi/felix/org.apache.felix.framework-1.8.1/src/main/java/org/apache/felix/framework/searchpolicy/ModuleImpl.java:230-250 | own capabilities, then the package capabilities of each fragment; a capability is listed exactly when it is own or a fragment's package capability |
| Modules.ModuleImpl.GetRequirements | lib/osgi/felix/org.apache.felix.framework-1.8.1/src/main/java/org/apache/felix/framework/searchpolicy/ModuleImpl.java:252-273 | own requirements, then each fragment's package and module requirements, with the membership if-and-only-if |
| Modules.ModuleImpl.GetDynamicRequirements | lib/osgi/felix/org.apache.felix.framework-1.8.1/src/main/java/org/apache/felix/framework/searchpolicy/ModuleImpl.java:275-295 | own dynamic requirements, then each fragment's package ones, with the membership if-and-only-if |
| Modules.ModuleImpl.ShouldBootDelegate | lib/osgi/felix/org.apache.felix.framework-1.8.1/src/main/java/org/apache/felix/framework/searchpolicy/ModuleImpl.java:1369-1397 | true exactly when the package is not the default one and some boot entry covers it (exactly, or by prefix for a wildcard) |
| Modules.LocatedEntries | lib/osgi/felix/org.apache.felix.framework-1.8.1/src/main/java/org/apache/felix/framework/searchpolicy/ModuleImpl.java:424-436 | a leading slash is ignored and "." stands for the module's own content |
| Modules.ModuleImpl.LocateEntry | lib/osgi/felix/org.apache.felix.framework-1.8.1/src/main/java/org/apache/felix/framework/searchpolicy/ModuleImpl.java:428-457 | one class path entry: the module's content for ".", else the embedded entry, else the first fragment content holding it |
| Modules.ModuleImpl.CalculateContentPath | lib/osgi/felix/org.apache.felix.framework-1.8.1/src/main/java/org/apache/felix/framework/searchpolicy/ModuleImpl.java:400-479 | appends the module's local content path to the list |
| Modules.LocalPathSound | lib/osgi/felix/org.apache.felix.framework-1.8.1/src/main/java/org/apache/felix/framework/searchpolicy/ModuleImpl.java:400-479 | the local content path is never empty and holds only the module's content or what some class path entry stands for |
| Modules.LocalPathComplete | lib/osgi/felix/org.apache.felix.framework-1.8.1/src/main/java/org/apache/felix/framework/searchpolicy/ModuleImpl.java:400-479 | every content a class path entry stands for is on the local content path |
| Modules.ModuleImpl.InitializeContentPath | lib/osgi/felix/org.apache.felix.framework-1.8.1/src/main/java/org/apache/felix/framework/searchpolicy/ModuleImpl.java:389-398 | the module's own path, then each fragment's |
| Modules.ModuleImpl.GetContentPath | lib/osgi/felix/org.apache.felix.framework-1.8.1/src/main/java/org/apache/felix/framework/searchpolicy/ModuleImpl.java:373-387 | computed on first use and kept: the same path every time |
| Modules.FirstHoldingMeaning | lib/osgi/felix/org.apache.felix.framework-1.8.1/src/main/java/org/apache/felix/framework/searchpolicy/ModuleImpl.java:638-668 | the first content path position holding the name, none exactly when no position does |
| Modules.LocalUrlPort | lib/osgi/felix/org.apache.felix.framework-1.8.1/src/main/java/org/apache/felix/framework/searchpolicy/ModuleImpl.java:638-668 | the URL for a name other than "/" is on port i+1 for the first position i holding the name, and there is none exactly when no position does |
| Modules.FindEntry | lib/osgi/felix/org.apache.felix.framework-1.8.1/src/main/java/org/apache/felix/framework/searchpolicy/ModuleImpl.java:650-665 | the scan of the content path computes LocalUrl |
| Modules.ModuleImpl.GetResourceLocal | lib/osgi/felix/org.apache.felix.framework-1.8.1/src/main/java/org/apache/felix/framework/searchpolicy/ModuleImpl.java:638-668 | the URL of the first content path entry holding the name, the root URL for "/"; the content path is computed if it was not yet |
| Modules.FirstAnswerMeaning | lib/osgi/felix/org.apache.felix.framework-1.8.1/src/main/java/org/apache/felix/framework/searchpolicy/ModuleImpl.java:1198-1216 | the first wire that does not answer null decides; null exactly when every wire answers null |
| Modules.ModuleImpl.SearchImports | lib/osgi/felix/org.apache.felix.framework-1.8.1/src/main/java/org/apache/felix/framework/searchpolicy/ModuleImpl.java:1198-1216 | the wires asked in order: FirstAnswer |
| Modules.SearchJavaFinal | lib/osgi/felix/org.apache.felix.framework-1.8.1/src/main/java/org/apache/felix/framework/searchpolicy/ModuleImpl.java:538-559 | a boot-delegated java.* package never reaches the imports, local content or dynamic imports |
| Modules.SearchWireWins | lib/osgi/felix/org.apache.felix.framework-1.8.1/src/main/java/org/apache/felix/framework/searchpolicy/ModuleImpl.java:563-566 | past boot delegation, the first wire answering a value decides the search |
| Modules.SearchNullOnlyFromJava | lib/osgi/felix/org.apache.felix.framework-1.8.1/src/main/java/org/apache/felix/framework/searchpolicy/ModuleImpl.java:538-636 | null is answered only for a boot-delegated java.* package whose parent loader answered null; every other null becomes not-found |
| Modules.SearchUnresolved | lib/osgi/felix/org.apache.felix.framework-1.8.1/src/main/java/org/apache/felix/framework/searchpolicy/ModuleImpl.java:582-609 | when resolving fails, a class is not found and a resource is looked up in local content only |
| Modules.SearchOrigin | lib/osgi/felix/org.apache.felix.framework-1.8.1/src/main/java/org/apache/felix/framework/searchpolicy/ModuleImpl.java:526-636 | every value found comes from the parent loader, a wire whose predecessors answered null, local content after all wires answered null, or the dynamic import after that |
| Modules.ModuleImpl.Delegate | lib/osgi/felix/org.apache.felix.framework-1.8.1/src/main/java/org/apache/felix/framework/searchpolicy/ModuleImpl.java:526-609 | the body inside the cycle check is the Search of the model |
| Modules.ModuleImpl.FindClassOrResourceByDelegation | lib/osgi/felix/org.apache.felix.framework-1.8.1/src/main/java/org/apache/felix/framework/searchpolicy/ModuleImpl.java:513-636 | a name already in the thread's request set answers null at once; otherwise the Search's answer, the request set restored on every way out |
| Modules.ModuleImpl.GetResourceByDelegation | lib/osgi/felix/org.apache.felix.framework-1.8.1/src/main/java/org/apache/felix/framework/searchpolicy/ModuleImpl.java:493-511 | the URL the delegation finds, null on a cycle, on not-found, or on a non-URL answer |

## Left out

- `LdapLexer`, `Evaluator`, `Mapper`, `StringMap` and `Operator` are not part of this model's source. The lexer is modelled from its use in the parser. It is a string and a position with `peek`, `get`, `peeknw` (which consumes whitespace), `getnw` and `skipwhitespace`. The evaluator runs the operators in order on a fresh stack and answers the Boolean on top. When PUSH finds no attribute it pushes a marker object in its place; a comparison on the marker is false, and the unsupported-type exception SUBSTRING raises on it is caught and replaced by false. So an item on a missing attribute counts as false and the run goes on. Any other exception ends the run. The string map is a case rule and a map keyed by the name, lower-cased when case-insensitive.
- Parser debug output, `ParseException` positions, and the exact wording of messages other than the constructor's "Failed to parse LDAP query." are not modelled. A syntax error is an `Err` with a message.
- Values in comparisons cover String, Integer, Character, Boolean, `String[]`, arrays of other component types and collections. Long, Short, Byte, Float, Double, BigInteger and BigDecimal go through the same `Comparable` path as Integer. They are left out because floating point and arbitrary precision add nothing the Integer case does not show. Values of other classes are not modelled. For them compare builds an instance of the value's class from the right-hand side with its String constructor and answers `equals`, or false when no instance can be built; it raises no error.
- Common.LowerChar, Common.Lower and Common.EqualsIgnoreCase fold the case of ASCII letters only. Java folds by Unicode, and `String.toLowerCase()` also depends on the locale. So the model can disagree with the source on non-ASCII text in several places: the objectClass test (`"objectClaſſ"` equals "objectClass" ignoring case in Java, not here), the keys of a case-insensitive map, and the lower-casing before string `~=`.
- Strings are sequences of Unicode scalar values, where Java strings are UTF-16 code units. LdapCompare.JavaCompareTo, the 10% length threshold of string `~=` and the `String.hashCode` behind FrameworkFilter.FilterImpl.HashCode therefore differ from Java on text with supplementary characters. LdapCompare.ParseInt accepts ASCII digits only, where `Integer.parseInt` also accepts other Unicode digits.
- LdapCompare.ParseInt rejects a leading `+`, as `Integer.parseInt` did before Java 7. From Java 7 on, `(n=+5)` matches the Integer 5.
- `FilterImpl`'s thread-local evaluator and mapper are replaced by a fresh mapper per call. The mapper is reset before and after each use, so no call can observe what an earlier one left. The logger is left out.
- `ProgramCache` is a plain map. The weak references of the `WeakHashMap` (entries disappearing under memory pressure) are not modelled.
- `ServiceRegistry`: `getRegisteredServices`, `getServicesInUse`, `ungetServices`, `unregisterServices`, `servicePropertiesModified`, `fireServiceChanged` (event delivery), `getLogger` and the `getEventHooks`/`getFindHooks`/`getListenerHooks` accessors are not modelled. The first four iterate the modelled operations. The others deliver events or return a field.
- `wait`/`notifyAll`: a registration locked by another thread returns the outcome `Blocked` instead of waiting. Concurrency itself is not modelled.
- Service factories are oracles. `Fetch` is what `getService` on the registration returns or throws. `releaseFails` says whether handing the object back throws.
- Registry.ServiceRegistry.UngetAll: the forced unget in `unregisterService` assumes the factory does not throw on release. An exception there would abort unregistration part-way. Its outcome is stated only for that case.
- Registry.ServiceRegistry.ForceUnget: same assumption as UngetAll.
- `UsageCount` records are values in the in-use arrays. Updating `m_count` in place is modelled as rebuilding the array with the changed record. No record is shared between arrays, so nothing observes the difference.
- `m_count` is an unbounded integer. The source's `int` could in principle wrap after 2^31 gets. That is not modelled.
- The `Filter` given to `getServiceReferences` is a predicate on service ids. `ServiceReference` objects are their ids.
- The `ServiceListenerMulticaster` is a tree of listeners. Its flattening to a list states the order of notification.
- `ModuleImpl`:
  - `attachFragments` and `attachFragmentContents` are not modelled. The fragments and their contents are fixed when the module is built, and a fragment's own fragments are never consulted.
  - `getClassByDelegation`, the class loader, `findClass`, native libraries, security contexts and `close` are not modelled.
  - `getResourcesByDelegation` and `getResourcesLocal` (enumerations) are not modelled.
  - The resolver, the wires' class and resource lookups, the parent class loader, the local class lookup and `searchDynamicImports` (with its class-context heuristic) are oracles in an `Env` value.
  - `Util.getClassPackage` and `Util.getResourcePackage` are not modelled. The package name is a parameter.
  - `ManifestParser.parseDelimitedString` is not modelled. The Bundle-ClassPath header is given already split into its entries, a sequence of strings.
  - Modules.ModuleImpl.SetWires: the if-and-only-if of Modules.Rewired holds when each exporter's importer and requirer arrays are duplicate-free before the call. `addDependent` keeps an array so (Modules.WithDependentMembers), but the model has no class invariant that carries this from one call to the next, since those arrays belong to other modules.
  - Bundle contents are a `Store` of two oracle functions: the embedded content of an entry, and whether a content has an entry.
  - The boot delegation arrays are a sequence of (package, wildcard) pairs.
  - `createURL` is modelled without its `MalformedURLException` path.
  - An exception from initializing the content path is not modelled.
  - A class value found by a resource search is mapped to null by `GetResourceByDelegation`.

## Findings

| source | as written | input that shows it | evidently intended | confidence | as-written member | corrected member |
|---|---|---|---|---|---|---|
| lib/osgi/felix/org.apache.felix.framework-1.8.1/src/main/java/org/apache/felix/framework/util/ldap/Parser.java:1176-1231 | `SubStringOperator.check` tests the last piece with `endsWith` on the whole string, so the last piece may overlap text an earlier piece already matched | `(cn=ab*b)` matches the value "ab" | the last piece must follow the earlier pieces | high (not executed) | LdapCompare.CheckAsWrittenOverlaps | LdapCompare.CheckMeansGlobMatch |
| lib/osgi/felix/org.apache.felix.framework-1.8.1/src/main/java/org/apache/felix/framework/ServiceRegistry.java:812-845 | `removeFromArray` copies the prefix with source and destination swapped, so the new array's prefix is null; the same copy also writes nulls over the prefix of the old array, which callers that fetched it earlier still hold (the model returns only the new array) | hooks [1, 2]: removing 2 leaves [null]; removing 1 afterwards throws a NullPointerException | the new array keeps the elements before and after the removed one | high (not executed) | Registry.AsWrittenExample | Registry.RemoveFromArray |
| lib/osgi/felix/org.apache.felix.framework-1.8.1/src/main/java/org/apache/felix/framework/util/ldap/Parser.java:762-766 | `ObjectClassOperator.toStringInfix` appends its target without escaping it | `(objectClass=\()` prints as `(objectClass=()`, which does not parse | the target escaped as every other printed value is | high (not executed) | LdapInfix.ObjectClassTextUnparsable | LdapInfix.ProgramTextOfCompiled |
| lib/osgi/felix/org.apache.felix.framework-1.8.1/src/main/java/org/apache/felix/framework/util/ldap/Parser.java:1336-1432 | `compare` tests `Comparable` before `Boolean`; since Java 5 Boolean is Comparable, so the Boolean branch is unreachable | `(flag>=false)` holds for `flag` = TRUE, and `(flag~=true)` raises | `compareBoolean`: every operator is equality | medium (not executed) | LdapCompare.BooleanViaComparableDiffers | LdapCompare.CompareBoolean |
| lib/osgi/felix/org.apache.felix.framework-1.8.1/src/main/java/org/apache/felix/framework/util/ldap/Parser.java:1659-1665 | `compareToApprox` computes the Integer bounds in 32-bit `int`, which overflows for large values | 300000000 is not approximately 300000000 | the bounds computed without overflow | high (not executed) | LdapCompare.IntApproxAsWrittenNotReflexive | LdapCompare.IntApproxReflexive |

The model uses each corrected definition and proves the intended property about it. Each as-written definition is kept beside it, and a lemma exhibits the input above.
