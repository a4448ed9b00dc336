# A Dafny model of the `tech` web toolkit

`tech` is a small Java toolkit for server-rendered web applications whose pages also ship
JavaScript to the browser. This project models its core and proves properties of the model.

- **JavaScript printer** (`javascript.dfy`, `javascript_facts.dfy`, `js_printer.dfy`). The
  expression and statement trees print with brackets only where the precedence lattice needs
  them, and strings print as single-quoted literals. Symbols are placeholders that a scope binds
  to values. The printer also lists each tree's free symbols and hands out fresh variable names.
- **Values** (`values.dfy`, `string_values.dfy`, `ui_values.dfy`). A value is known on the back
  end, computed in the browser, or both. Every value falls in one of four categories: constant,
  variable (supplied), time-dependent, or other. Unary and binary operations combine them by a
  fixed table, and string constants are folded.
- **HTML and CSS builders** (`strings.dfy`, `css.dfy`, `html.dfy`, `element.dfy`,
  `dom_creation.dfy`, `lazy_builder.dfy`, `abstract_component.dfy`). These cover immutable
  elements and their attribute lists, `onload` code bubbling up from children, escaping,
  rendering to text, and the JavaScript that builds the same tree in the browser.
- **Page assembly** (`script.dfy`, `abstract_page.dfy`, `http_request.dfy`). The page script
  accepts members until it is first rendered. A page declares its `onLoad` function once, and a
  parametric request passes every header on to every request it made.
- **History and broadcasting** (`stamped.dfy`, `in_memory_history_store.dfy`,
  `history_store.dfy`, `persisted_history_store.dfy`, `session_broadcast_target.dfy`,
  `client_collection.dfy`, `quarkus_web_socket.dfy`, `client_state_handler.dfy`). Every update
  gets a new stamp and delivers its events per client. Listeners and websocket sessions are
  registered and removed, and a client closes once, running its close tasks. The browser-side
  handler groups update handlers by condition set into one `if`/`else if` chain.

Objects that the source changes in place are classes with `modifies` clauses. Their methods are
proved against specification functions: `Script`, `AbstractPage`, `FunN`, the name scope, the
history stores, `SessionBroadcastTarget`, `ClientCollection`, the websocket endpoint, the
request builders and `ClientStateHandler`. The immutable parts are datatypes and functions.
Where the source throws (`checkState`, `checkArgument`, `assertStatic` on a dynamic value, a
declaration in a scope that forbids one), the model returns `None`, or `false` in the `ok`
result of a method.

## Model

| member | source | states |
|---|---|---|
| Values.ConstantValueOf | tech-web/src/main/java/org/gamboni/tech/web/ui/value/Value.java:29-31 | the constant a value holds (a constant's own, a wrapper's delegate's); a value with a constant is never time-dependent |
| Values.VariableValueOf | tech-web/src/main/java/org/gamboni/tech/web/ui/value/Value.java:33-35 | the back-end supplier (a supplied value's own, a wrapper's delegate's); a constant acts as a supplier yielding itself |
| Values.AssertStatic | tech-web/src/main/java/org/gamboni/tech/web/ui/value/Value.java:25-27 | a back-end value exists only for a value with a supplier, and for a constant it is that constant; elsewhere the source throws |
| Values.AsExpr | tech-web/src/main/java/org/gamboni/tech/web/ui/value/Value.java:64-171 | the JavaScript expression a value prints as, a wrapper printing as its delegate |
| Values.CategoryOf | tech-web/src/main/java/org/gamboni/tech/web/ui/value/ValueWrapper.java:81-95 | constant, variable, time-dependent or other, asking the queries in that order |
| Values.Combine | tech-web/src/main/java/org/gamboni/tech/web/ui/value/ValueWrapper.java:90-95 | the category table: constant exactly when both are constant; variable exactly when one is variable and neither is time-dependent or other; time-dependent whenever one is; other exactly when one is other and the other is constant or other |
| Values.Get | tech-web/src/main/java/org/gamboni/tech/web/ui/value/Value.java:97-100 | reading a supplier gives a value exactly when the supplier yields one |
| Values.Then | tech-web/src/main/java/org/gamboni/tech/web/ui/value/Value.java:53-54 | the mapped supplier yields exactly when the original yields and the mapping succeeds, and yields the mapped value |
| Values.Both | tech-web/src/main/java/org/gamboni/tech/web/ui/value/ValueWrapper.java:108-110 | the combined supplier yields exactly when both sides yield, and yields the operator applied to both |
| Values.QueriesAgree | tech-web/src/main/java/org/gamboni/tech/web/ui/value/Value.java:25-39 | the four queries are consistent: a constant is also a variable value yielding itself and is not time-dependent; a value is static exactly when it has a yielding variable value; a variable non-constant value is time-dependent |
| Values.Const | tech-web/src/main/java/org/gamboni/tech/web/ui/value/Value.java:124-171 | a constant answers every query with its constant, is in the constant category and prints as its literal |
| Values.SuppliedOf | tech-web/src/main/java/org/gamboni/tech/web/ui/value/Value.java:89-122 | a supplied value has no constant, has its supplier as variable value, is time-dependent, is static only when the supplier yields, and prints as its expression |
| Values.TimeDependentOf | tech-web/src/main/java/org/gamboni/tech/web/ui/value/Value.java:64-87 | a time-dependent value has neither constant nor supplier, cannot be made static, and prints as its expression |
| Values.Of | tech-web/src/main/java/org/gamboni/tech/web/ui/value/Value.java:197-200 | a value is kept as it is; any other expression becomes a value of the "other" category that is not static |
| Values.OfEnum | tech-web/src/main/java/org/gamboni/tech/web/ui/value/Value.java:173-175 | an enum constant has itself as constant and prints as the string literal of its name |
| Values.ConstantEqualityIgnoresLiterals | tech-web/src/main/java/org/gamboni/tech/web/ui/value/Value.java:152-163 | equality of constants is symmetric, depends on the constants and not on their literals, and equal constants hash alike |
| Values.Map | tech-web/src/main/java/org/gamboni/tech/web/ui/value/Value.java:49-62 | a constant is mapped and re-wrapped (failing only where the mapping fails); any other value keeps its category and prints as the mapped expression; a supplied value's supplier is mapped lazily |
| Values.MapKeepsCategory | tech-web/src/main/java/org/gamboni/tech/web/ui/value/Value.java:49-62 | with a wrapper that builds constants, mapping never changes the category of a value |
| Values.CombineIsTheLeastUpperBound | tech-web/src/main/java/org/gamboni/tech/web/ui/value/ValueWrapper.java:81-95 | the combination table is commutative, idempotent and associative, has constant as identity and time-dependent as absorbing element, and gives the least upper bound in the order constant < variable, other < time-dependent |
| Values.MapWith | tech-web/src/main/java/org/gamboni/tech/web/ui/value/ValueWrapper.java:79-120 | two constants combine into the wrapped constant; a variable with a variable or constant becomes a supplied value over both suppliers; a constant with anything else keeps the other side's category, and with a supplied value yields the operator over the constant and what it supplies; whenever a side is not constant, the result prints as the expression operator over both sides |
| Values.MapWithSupplies | tech-web/src/main/java/org/gamboni/tech/web/ui/value/ValueWrapper.java:99-111 | whenever both sides have a back-end value, the combination has one, yielding exactly when both yield, the operator applied to both |
| Values.MapWithFollowsTheTable | tech-web/src/main/java/org/gamboni/tech/web/ui/value/ValueWrapper.java:81-119 | for every pair of categories, the category of the combination is the one the table gives |
| StringValues.OfLiteral | tech-web/src/main/java/org/gamboni/tech/web/ui/value/StringValue.java:17-19 | a string literal is a constant of the text and prints as its JavaScript string literal |
| StringValues.OfTerm | tech-web/src/main/java/org/gamboni/tech/web/ui/value/StringValue.java:10-16 | a string value is returned as it is; any other expression is wrapped without changing its category, constant, supplier or printed form |
| StringValues.LiteralsAreConstants | tech-web/src/main/java/org/gamboni/tech/web/ui/value/StringValue.java:17-19 | every string literal is in the constant category, so the string wrapper builds constants |
| StringValues.Plus | tech-web/src/main/java/org/gamboni/tech/web/ui/value/StringValue.java:25-30 | concatenating two constants gives the concatenated constant; the category follows the combination table; whenever a side is not constant, the result prints as a JavaScript `+` of both sides; whenever both sides have a back-end value, the result's back-end value yields exactly when both do, and is the left text followed by the right one's string form |
| StringValues.Suffix | tech-web/src/main/java/org/gamboni/tech/web/ui/value/StringValue.java:34 | a suffix exists exactly when the index is within bounds, and the text is its prefix followed by the suffix |
| StringValues.Between | tech-web/src/main/java/org/gamboni/tech/web/ui/value/StringValue.java:41 | a substring exists exactly when the bounds are ordered and within range, and the text splits around it |
| StringValues.Substring | tech-web/src/main/java/org/gamboni/tech/web/ui/value/StringValue.java:32-37 | a constant gives the suffix (failing exactly when out of bounds); any other value keeps its category and prints as a `substring` call; a supplied value takes the suffix lazily |
| StringValues.Slice | tech-web/src/main/java/org/gamboni/tech/web/ui/value/StringValue.java:39-44 | a constant gives the slice (failing exactly when out of range); any other value keeps its category and prints as a `slice` call; a supplied value takes the slice lazily, failing only on the back end |
| StringValues.ToLowerCase | tech-web/src/main/java/org/gamboni/tech/web/ui/value/StringValue.java:46-51 | a constant is lower-cased, the category never changes, and any other value prints as a `toLowerCase()` call; a supplied value is lower-cased lazily on the back end |
| StringValues.SubstringOfSuppliedIsLazy | tech-web/src/main/java/org/gamboni/tech/web/ui/value/StringValue.java:32-37 | taking a too-long suffix of a supplied value succeeds and only its back-end value fails |
| UiValues.AssertStatic | tech-web/src/main/java/org/gamboni/tech/web/ui/Value.java:32-35 | a value is static exactly when it is a constant, and then yields the constant |
| UiValues.OfString | tech-web/src/main/java/org/gamboni/tech/web/ui/Value.java:77-79 | a string is a constant of itself printed as its string literal |
| UiValues.OfEnum | tech-web/src/main/java/org/gamboni/tech/web/ui/Value.java:74-76 | an enum is a constant of itself printed as the string literal of its name |
| UiValues.OfLong | tech-web/src/main/java/org/gamboni/tech/web/ui/Value.java:81-83 | a number is a constant of itself printed in decimal |
| UiValues.OfExpression | tech-web/src/main/java/org/gamboni/tech/web/ui/Value.java:97-99 | an expression is a dynamic value that prints as the expression |
| UiValues.Concat | tech-web/src/main/java/org/gamboni/tech/web/ui/Value.java:19-30 | the result is constant exactly when both sides are, then holding the joined text; otherwise it prints as `lhs + rhs` |
| UiValues.ConcatOfConstantsPrints | tech-web/src/main/java/org/gamboni/tech/web/ui/Value.java:19-30 | joining two string constants prints as a single string literal of the joined text |
| UiValues.ConstantEqualityIgnoresLiterals | tech-web/src/main/java/org/gamboni/tech/web/ui/Value.java:57-68 | constants with equal values are equal and hash alike whatever their literals |
| Css.NamedClass | tech-web/src/main/java/org/gamboni/tech/web/ui/Css.java:203-205 | a class built from a name holds the constant of that name |
| Css.And | tech-web/src/main/java/org/gamboni/tech/web/ui/Css.java:181-187 | adding a class keeps the earlier names in order and puts the new one last |
| Css.AttributeValue | tech-web/src/main/java/org/gamboni/tech/web/ui/Css.java:189-198 | the class attribute has a value exactly when there is at least one name |
| Css.SpaceSeparatedConstants | tech-web/src/main/java/org/gamboni/tech/web/ui/Css.java:189-198 | the folded attribute value is a constant exactly when every name is, and then it is the names joined by single spaces |
| Css.EnumClass | tech-web/src/main/java/org/gamboni/tech/web/ui/Css.java:26-28 | the class of an enum constant is its name in lower case |
| Css.EnumClasses | tech-web/src/main/java/org/gamboni/tech/web/ui/Css.java:21-24 | there is one class per enum constant, in order, each the lower-cased name |
| Css.EnumValueClass | tech-web/src/main/java/org/gamboni/tech/web/ui/Css.java:30-36 | a constant value gives the class of its constant; a dynamic one gives a class computed by `toLowerCase()` in the browser |
| Css.ClassNameText | tech-web/src/main/java/org/gamboni/tech/web/ui/Css.java:214-217 | a constant class name prints as its constant |
| Css.Or | tech-web/src/main/java/org/gamboni/tech/web/ui/Css.java:138-148 | `or` on nothing is the other selector; otherwise both selectors are kept |
| Css.RenderSelector | tech-web/src/main/java/org/gamboni/tech/web/ui/Css.java:132-136 | nothing cannot be rendered, and a class selector renders as a dot and its name exactly when the name is constant |
| Css.CombinatorsRender | tech-web/src/main/java/org/gamboni/tech/web/ui/Css.java:145-163 | `or`, `child`, `after` and `before` print as `a, b`, `a b`, `a::after` and `a::before` of their rendered parts |
| Css.NothingOnlyVanishesInOr | tech-web/src/main/java/org/gamboni/tech/web/ui/Css.java:132-141 | `or` drops a leading nothing, while every other combinator over nothing fails to render |
| Css.PropertyText | tech-web/src/main/java/org/gamboni/tech/web/ui/Css.java:125-127 | a declaration is an indented `name: ` line ending in `;` and a newline |
| Css.Rule | tech-web/src/main/java/org/gamboni/tech/web/ui/Css.java:54-58 | a rule renders exactly when its selector does, as the selector, then the declarations in order inside braces |
| Css.PropertiesTextAppend | tech-web/src/main/java/org/gamboni/tech/web/ui/Css.java:56 | the declarations of two lists of properties print as the declarations of the first followed by those of the second |
| Markup.AttributeName | tech-web/src/main/java/org/gamboni/tech/web/ui/Css.java:167-169 | a class list is always the `class` attribute |
| Markup.AttributeValue | tech-web/src/main/java/org/gamboni/tech/web/ui/Html.java:138-140 | a plain attribute has its own value; a class list has the space-separated value of its names, missing when the list is empty |
| Markup.AttributeOf | tech-web/src/main/java/org/gamboni/tech/web/ui/Html.java:80-92 | the attribute has exactly the given name and value |
| Markup.AttributeOfString | tech-web/src/main/java/org/gamboni/tech/web/ui/Html.java:127-129 | a string attribute has the given name and a constant value equal to the string |
| Markup.ScriptText | tech-web/src/main/java/org/gamboni/tech/web/ui/Html.java:123-125 | script text is an expression printed without declarations, or a statement printed the same way |
| Markup.AttributeOfScript | tech-web/src/main/java/org/gamboni/tech/web/ui/Html.java:122-125 | a script attribute exists exactly when its script prints, and then holds the printed script as a constant |
| Markup.AttributeCreate | tech-web/src/main/java/org/gamboni/tech/web/ui/Html.java:142-146 | creating an attribute in the browser is one `setAttribute` call with the name literal and the value's expression, present exactly when the value is |
| Markup.Escape | tech-web/src/main/java/org/gamboni/tech/web/ui/Html.java:39-43 | escaped text contains no `<` and no `>` |
| Markup.EscapeIsPerCharacter | tech-web/src/main/java/org/gamboni/tech/web/ui/Html.java:39-43 | the three replacements in a row equal escaping each character on its own |
| Markup.EscapeHead | tech-web/src/main/java/org/gamboni/tech/web/ui/Html.java:39-43 | escaping a single character gives that character's entity or the character itself |
| Markup.UnescapeEscape | tech-web/src/main/java/org/gamboni/tech/web/ui/Html.java:39-43 | escaping loses nothing: reading the entities back gives the original text |
| Markup.UnescapeMapChars | tech-web/src/main/java/org/gamboni/tech/web/ui/Html.java:39-43 | reading back a per-character escape gives the original text |
| Markup.UnescapeOneCharacter | tech-web/src/main/java/org/gamboni/tech/web/ui/Html.java:39-43 | reading back the escape of one character followed by more text gives that character followed by the rest read back |
| Markup.EscapeValueAsWritten | tech-web/src/main/java/org/gamboni/tech/web/ui/Html.java:54-59 | the escape of a value as written exists exactly when the value is constant |
| Markup.EscapeValueAsWrittenLosesAmpersands | tech-web/src/main/java/org/gamboni/tech/web/ui/Html.java:54-59 | as written, `&` and `amp;` render the same, and `&` does not render as the string escape renders it |
| Markup.EscapeValue | tech-web/src/main/java/org/gamboni/tech/web/ui/Html.java:54-59 | the corrected value escape exists exactly when the value is constant, contains no tag characters and reads back to the value |
| Markup.Quote | tech-web/src/main/java/org/gamboni/tech/web/ui/Html.java:74-78 | quoted text starts and ends with a double quote, has none in between, and in between holds each character of the text with `&` and `"` written as entities |
| Markup.UnquoteQuote | tech-web/src/main/java/org/gamboni/tech/web/ui/Html.java:74-78 | quoting loses nothing: reading the entities between the quotes back gives the original text |
| Markup.RenderAttribute | tech-web/src/main/java/org/gamboni/tech/web/ui/Html.java:148-154 | an attribute renders exactly when its value is present and constant, as `name=` followed by the quoted value |
| Markup.RenderAttributes | tech-web/src/main/java/org/gamboni/tech/web/ui/Tag.java:45-47 | the attributes render exactly when each does, as their renderings in order joined by single spaces |
| Markup.RenderedAttributes | tech-web/src/main/java/org/gamboni/tech/web/ui/Tag.java:46 | there is one rendering per attribute, in order |
| Markup.StartTag | tech-web/src/main/java/org/gamboni/tech/web/ui/Tag.java:27-29 | a tag prints as `<name>` without attributes and as `<name attrs>` with them, and it prints exactly when its attributes render |
| Markup.ToString | tech-web/src/main/java/org/gamboni/tech/web/ui/Element.java:134-139 | the empty fragment prints as nothing, text as its escape, a value as the corrected value escape (`&` as `&amp;`, see Findings), a tag as its start tag, and an element, when its start tag and every child print, as start tag, children and `</name>` |
| Markup.ContentsToString | tech-web/src/main/java/org/gamboni/tech/web/ui/Element.java:137 | no contents print as the empty text |
| Markup.EscapedTextHasNoTags | tech-web/src/main/java/org/gamboni/tech/web/ui/Html.java:32-45 | rendering escaped text always succeeds, never opens a tag and reads back to the text |
| Elements.Flatten | tech-web/src/main/java/org/gamboni/tech/web/ui/Element.java:40-44 | no fragments flatten to no nodes, and a single node flattens to itself |
| Elements.FlattenAppend | tech-web/src/main/java/org/gamboni/tech/web/ui/Element.java:40-44 | flattening distributes over concatenation |
| Elements.FragmentOf | tech-web/src/main/java/org/gamboni/tech/web/ui/Element.java:40-44 | a group of fragments flattens to the nodes of its parts |
| Elements.OnLoadOf | tech-web/src/main/java/org/gamboni/tech/web/ui/Element.java:46-56 | no contents contribute no `onload` code |
| Elements.OnLoadOfSnoc | tech-web/src/main/java/org/gamboni/tech/web/ui/Element.java:48-54 | one more fragment adds its own `onload` code after the others' |
| Elements.GroupedElementsLoseTheirOnLoad | tech-web/src/main/java/org/gamboni/tech/web/ui/Element.java:49 | an element given directly contributes its `onload` code, while the same element inside a group contributes none |
| Elements.ExtractOnLoad | tech-web/src/main/java/org/gamboni/tech/web/ui/Element.java:46-56 | the lazy builder yields the initial code followed by the `onload` code of each directly given element, in content order |
| Elements.ElementOf | tech-web/src/main/java/org/gamboni/tech/web/ui/Element.java:33-38 | the element keeps its name and attributes, flattens its contents and collects their `onload` code |
| Elements.GetAttribute | tech-web/src/main/java/org/gamboni/tech/web/ui/Element.java:163-168 | the lookup is empty exactly when no attribute has the name; otherwise it is the first attribute with that name |
| Elements.Others | tech-web/src/main/java/org/gamboni/tech/web/ui/Element.java:104-108 | filtering never lengthens the attribute list |
| Elements.OthersAreTheOtherAttributes | tech-web/src/main/java/org/gamboni/tech/web/ui/Element.java:104-108 | an attribute is kept exactly when it was present and has another name |
| Elements.KeepOthers | tech-web/src/main/java/org/gamboni/tech/web/ui/Element.java:104-108 | the filtering loop keeps exactly the attributes of other names, in order |
| Elements.OthersSnoc | tech-web/src/main/java/org/gamboni/tech/web/ui/Element.java:104-108 | filtering one more attribute keeps it exactly when its name differs |
| Elements.WithAttribute | tech-web/src/main/java/org/gamboni/tech/web/ui/Element.java:102-112 | the loop keeps the attributes of other names in order and puts the new attribute last, leaving name, contents and `onload` alone |
| Elements.SetAttributeIsFound | tech-web/src/main/java/org/gamboni/tech/web/ui/Element.java:102-112 | after setting an attribute, looking up its name finds it, and no earlier attribute has that name |
| Elements.GetAttributeOfLast | tech-web/src/main/java/org/gamboni/tech/web/ui/Element.java:163-168 | the last attribute is found when no earlier one has its name |
| Elements.SetAttributeKeepsOthers | tech-web/src/main/java/org/gamboni/tech/web/ui/Element.java:102-112 | setting an attribute leaves the lookup of every other name unchanged, and setting again filters the same others |
| Elements.OthersLookup | tech-web/src/main/java/org/gamboni/tech/web/ui/Element.java:104-108 | removing one name leaves the lookup of every other name unchanged |
| Elements.LookupPastTheEnd | tech-web/src/main/java/org/gamboni/tech/web/ui/Element.java:163-168 | an attribute appended with another name does not change a lookup |
| Elements.OthersIdempotent | tech-web/src/main/java/org/gamboni/tech/web/ui/Element.java:104-108 | removing a name twice is removing it once |
| Elements.PlusAttribute | tech-web/src/main/java/org/gamboni/tech/web/ui/Element.java:82-91 | adding an attribute appends it after the existing ones and keeps name, contents and `onload` |
| Elements.PlusAttributeKeepsTheFirst | tech-web/src/main/java/org/gamboni/tech/web/ui/Element.java:74-84 | after adding an attribute whose name is already present, the lookup still finds the earlier attribute |
| Elements.PlusKeepsLookup | tech-web/src/main/java/org/gamboni/tech/web/ui/Element.java:163-168 | appending never changes a lookup that already succeeds |
| Elements.WithAttributes | tech-web/src/main/java/org/gamboni/tech/web/ui/Element.java:118-123 | only the attributes change; name, contents and `onload` are kept |
| Elements.WithContents | tech-web/src/main/java/org/gamboni/tech/web/ui/Element.java:125-128 | name and attributes are kept, the contents are flattened and their `onload` code follows the element's own |
| Elements.WithOnLoad | tech-web/src/main/java/org/gamboni/tech/web/ui/Element.java:114-116 | exactly one piece of code is appended to `onload`, and everything else is kept |
| Elements.ChildOnLoadReachesTheParent | tech-web/src/main/java/org/gamboni/tech/web/ui/Element.java:114-128 | code added to a child before it is placed in a parent ends up last in the parent's `onload` |
| DomCreation.Setters | tech-web/src/main/java/org/gamboni/tech/web/ui/Tag.java:36-38 | there is one `setAttribute` statement per attribute, in attribute order |
| DomCreation.Creation | tech-web/src/main/java/org/gamboni/tech/web/ui/Element.java:141-161 | the empty fragment creates nothing; text creates a text node passed to the continuation; a tag or element binds a new element to the next free symbol, and the counter of free symbols never moves back |
| DomCreation.ChildCreations | tech-web/src/main/java/org/gamboni/tech/web/ui/Element.java:149-156 | there is one creation per child, and the symbol counter only moves forward |
| DomCreation.CreationTakesOneSymbolPerNode | tech-web/src/main/java/org/gamboni/tech/web/ui/Element.java:141-161 | creating a tree takes exactly one fresh symbol per element and tag, whatever the continuation |
| DomCreation.ChildCreationsTakeOneSymbolPerNode | tech-web/src/main/java/org/gamboni/tech/web/ui/Element.java:149-156 | creating the children takes exactly one fresh symbol per element and tag among them |
| DomCreation.ElementCreationShape | tech-web/src/main/java/org/gamboni/tech/web/ui/Element.java:141-161 | an element's body is its setters, then one statement per child appending it, then exactly one continuation statement last |
| DomCreation.Create | tech-web/src/main/java/org/gamboni/tech/web/ui/Element.java:141-161 | the loops of the source build exactly the specified creation and symbol count |
| DomCreation.TagCreation | tech-web/src/main/java/org/gamboni/tech/web/ui/Tag.java:32-43 | a tag binds a new element of its name and runs its setters, then the continuation |
| DomCreation.TagCreationShape | tech-web/src/main/java/org/gamboni/tech/web/ui/Tag.java:32-43 | a tag's creation is one setter per attribute, in order, followed by exactly one continuation statement |
| DomCreation.TagCreate | tech-web/src/main/java/org/gamboni/tech/web/ui/Tag.java:32-43 | the source's loop builds exactly the specified tag creation |
| DomCreation.SetterStatements | tech-web/src/main/java/org/gamboni/tech/web/ui/Tag.java:35-38 | the loop collects exactly the setters of the attributes, in order |
| DomCreation.SettersSnoc | tech-web/src/main/java/org/gamboni/tech/web/ui/Tag.java:36-38 | one more attribute adds its setter at the end |
| DomCreation.ElementCreate | tech-web/src/main/java/org/gamboni/tech/web/ui/Element.java:142-160 | the element's loops over attributes and children build exactly the specified creation |
| LazyBuilders.ListBuilder.constructor | tech-web/src/main/java/org/gamboni/tech/misc/LazyBuilder.java:29-32 | a new list builder holds exactly its base |
| LazyBuilders.ListBuilder.Add | tech-web/src/main/java/org/gamboni/tech/misc/LazyBuilder.java:14-17 | adding appends the item in place |
| LazyBuilders.Add | tech-web/src/main/java/org/gamboni/tech/misc/LazyBuilder.java:14-33 | adding always gives a builder backed by a list that builds the old contents plus the item; a backed builder returns itself, and a persistent one returns a new backed builder |
| LazyBuilders.AddAll | tech-web/src/main/java/org/gamboni/tech/misc/LazyBuilder.java:26-38 | adding items one by one to a builder over a base builds the base followed by the items, and adding nothing builds the base |
| LazyBuilders.AddEach | tech-web/src/main/java/org/gamboni/tech/misc/LazyBuilder.java:14-33 | adding items in a loop builds the old contents followed by the items, and any list it ends up backed by is the old one or a new one |
| Scripts.Texts | tech-web/src/main/java/org/gamboni/tech/web/ui/Script.java:38-41 | each member gives its own text, in member order |
| Scripts.Script.constructor | tech-web/src/main/java/org/gamboni/tech/web/ui/Script.java:18-24 | a new script has no members, is not exposed, and has the default URL `/script.js` |
| Scripts.Script.Add | tech-web/src/main/java/org/gamboni/tech/web/ui/Script.java:26-29 | a member is appended exactly when the script has not been rendered; otherwise the call fails and nothing changes |
| Scripts.Script.IsEmpty | tech-web/src/main/java/org/gamboni/tech/web/ui/Script.java:31-33 | a script is empty exactly when it has no members |
| Scripts.RenderWith | tech-web/src/main/java/org/gamboni/tech/web/ui/Script.java:38-41 | the `onLoad` declaration member renders as the declaration text it is given, and every other member as its own text |
| Scripts.Script.Render | tech-web/src/main/java/org/gamboni/tech/web/ui/Script.java:36-42 | rendering marks the script exposed and gives the members' texts concatenated in order |
| Scripts.Script.SetUrl | tech-web/src/main/java/org/gamboni/tech/web/ui/Script.java:22-24 | only the URL changes |
| Scripts.Script.AsElement | tech-web/src/main/java/org/gamboni/tech/web/ui/Script.java:44-51 | the script element is a `script` element with no contents, whose attributes are the type and then the source URL |
| Scripts.RenderingFreezes | tech-web/src/main/java/org/gamboni/tech/web/ui/Script.java:26-42 | a script rendered once renders the same text again, even after a member was offered in between |
| Pages.HeadOf | tech-web/src/main/java/org/gamboni/tech/web/ui/AbstractPage.java:95-98 | the head holds the dependencies and nothing else |
| Pages.BodyOf | tech-web/src/main/java/org/gamboni/tech/web/ui/AbstractPage.java:95-98 | the body holds the body attributes and the body elements |
| Pages.FlattenOfNodes | tech-web/src/main/java/org/gamboni/tech/web/ui/AbstractPage.java:95-98 | giving nodes one by one flattens back to the same nodes |
| Pages.AsElement | tech-web/src/main/java/org/gamboni/tech/web/ui/AbstractPage.java:95-102 | the page is an `html` element holding the head and then the body |
| Pages.WithBodyOnLoad | tech-web/src/main/java/org/gamboni/tech/web/ui/AbstractPage.java:104-109 | adding load code keeps dependencies and body and appends one `onload` attribute, present exactly when the code prints |
| Pages.PageText | tech-web/src/main/java/org/gamboni/tech/web/ui/AbstractPage.java:111-114 | the page text is the doctype line followed by the element, present exactly when the element prints |
| Pages.ScriptUrl | tech-web/src/main/java/org/gamboni/tech/web/ui/AbstractPage.java:49-55 | a slash is added only when the base path lacks one, then `script.js` |
| Pages.Members | tech-web/src/main/java/org/gamboni/tech/web/ui/AbstractPage.java:77-81 | each text becomes one script member, in order |
| Pages.MembersSnoc | tech-web/src/main/java/org/gamboni/tech/web/ui/AbstractPage.java:78-80 | one more text adds one more member at the end |
| Pages.AbstractPage.constructor | tech-web/src/main/java/org/gamboni/tech/web/ui/AbstractPage.java:44-46 | a new page uses the given script, with an empty load body and no parameters |
| Pages.AbstractPage.AddToOnLoad | tech-web/src/main/java/org/gamboni/tech/web/ui/AbstractPage.java:32-42 | the first addition declares `onLoad` in the script (failing, with nothing changed, when it no longer accepts members); each value asked for becomes one new parameter bound to its value, earlier bindings are kept, and the code built over the new parameters is appended to the load body |
| Pages.AbstractPage.AddParameters | tech-web/src/main/java/org/gamboni/tech/web/ui/AbstractPage.java:37-41 | the values asked for become as many new `onLoad` parameters, in order, each referred to by its name and bound to its value; earlier bindings are kept and nothing is added to the load body |
| Pages.AbstractPage.AddParameter | tech-web/src/main/java/org/gamboni/tech/web/ui/AbstractPage.java:38-40 | one value becomes one new `onLoad` parameter, distinct from the earlier ones, bound to that value, and referred to by its name |
| Pages.AbstractPage.SetBasePath | tech-web/src/main/java/org/gamboni/tech/web/ui/AbstractPage.java:49-55 | the script URL becomes the script URL of the base path, and nothing else changes |
| Pages.AbstractPage.AddToScript | tech-web/src/main/java/org/gamboni/tech/web/ui/AbstractPage.java:77-81 | every text is appended as a member while the script accepts members, none once it is exposed |
| Pages.AbstractPage.DeclarationText | tech-web/src/main/java/org/gamboni/tech/web/js/JavaScript.java:225-233 | when the load body prints, the declaration is `function onLoad(`, the parameters `onLoad` has at that moment joined by `, `, `) {`, a newline, the load body's text, a newline and `}` |
| Pages.AbstractPage.RenderScript | tech-web/src/main/java/org/gamboni/tech/web/ui/AbstractPage.java:32-36 | rendering the page script marks it exposed; each `onLoad` member becomes the declaration of `onLoad` with its current parameters over the whole load body, every other member its text, concatenated in order; it fails exactly when the declaration is present and the load body cannot print |
| Pages.AbstractPage.Html | tech-web/src/main/java/org/gamboni/tech/web/ui/AbstractPage.java:57-75 | the script is added after the dependencies exactly when it has members; the body gets exactly one attribute, `onload`, exactly when code was added to the load body |
| Pages.AbstractPage.BodyCallsOnLoad | tech-web/src/main/java/org/gamboni/tech/web/ui/AbstractPage.java:64-73 | when code was added, the `onload` attribute calls `onLoad` with, for each parameter in order, the value its function gives for the page data |
| Components.Nodes | tech-web/src/main/java/org/gamboni/tech/web/ui/AbstractComponent.java:26 | variable arguments reach the element one node per argument, in order |
| Components.A | tech-web/src/main/java/org/gamboni/tech/web/ui/AbstractComponent.java:26-28 | a link is an `a` element whose only attribute is `href`, so looking up `href` finds it |
| Components.StyledA | tech-web/src/main/java/org/gamboni/tech/web/ui/AbstractComponent.java:29-33 | a styled link has the class list first and `href` second, and looking up `href` finds it |
| Components.AWithAttributes | tech-web/src/main/java/org/gamboni/tech/web/ui/AbstractComponent.java:34-40 | the given attributes come first and unchanged, with `href` appended after them |
| Components.OnClick | tech-web/src/main/java/org/gamboni/tech/web/ui/AbstractComponent.java:42-48 | the `onclick` attribute holds the printed click handler |
| Components.StyledButton | tech-web/src/main/java/org/gamboni/tech/web/ui/AbstractComponent.java:42-44 | a styled button has the class list then `onclick`, and its only content is the escaped text, carrying no load code |
| Components.Button | tech-web/src/main/java/org/gamboni/tech/web/ui/AbstractComponent.java:46-48 | a button's only attribute is `onclick`, and its only content is the escaped text |
| Components.StyledImg | tech-web/src/main/java/org/gamboni/tech/web/ui/AbstractComponent.java:55-58 | a styled image is a tag with the class list first and then `src` |
| Components.Img | tech-web/src/main/java/org/gamboni/tech/web/ui/AbstractComponent.java:60-63 | an image is a tag whose only attribute is the constant `src` |
| Components.Input | tech-web/src/main/java/org/gamboni/tech/web/ui/AbstractComponent.java:73-75 | an input is an element with the given attributes and no contents |
| Components.Div | tech-web/src/main/java/org/gamboni/tech/web/ui/AbstractComponent.java:65-67 | a `div` with the given attributes holds its fragments |
| Components.P | tech-web/src/main/java/org/gamboni/tech/web/ui/AbstractComponent.java:81-83 | a `p` with the given attributes holds its fragments |
| Components.StyledSpan | tech-web/src/main/java/org/gamboni/tech/web/ui/AbstractComponent.java:85-87 | a styled span's only attribute is its class list |
| Components.Span | tech-web/src/main/java/org/gamboni/tech/web/ui/AbstractComponent.java:89-91 | a `span` with the given attributes holds its fragments |
| Components.Li | tech-web/src/main/java/org/gamboni/tech/web/ui/AbstractComponent.java:96 | a list item holds exactly one node and inherits that node's load code when it is an element |
| Components.Items | tech-web/src/main/java/org/gamboni/tech/web/ui/AbstractComponent.java:95-96 | there is one item per entry, in order, each wrapping the entry's rendering |
| Components.Ul | tech-web/src/main/java/org/gamboni/tech/web/ui/AbstractComponent.java:94-97 | an unnumbered list has no attributes and holds one item per entry, in order, each wrapping that entry's rendering |
| Components.FlattenNodes | tech-web/src/main/java/org/gamboni/tech/web/ui/AbstractComponent.java:95-96 | fragments that are all single nodes flatten to those nodes, in order |
| Components.NonEmpty | tech-web/src/main/java/org/gamboni/tech/web/ui/AbstractComponent.java:107 | the kept renderings are exactly those that are not the empty fragment |
| Components.NonEmptyAppend | tech-web/src/main/java/org/gamboni/tech/web/ui/AbstractComponent.java:107 | filtering keeps the order: the kept renderings of two lists are those of the first followed by those of the second |
| Components.NonEmptyCounts | tech-web/src/main/java/org/gamboni/tech/web/ui/AbstractComponent.java:107 | a rendering other than the empty fragment is kept as many times as it occurs, and the empty fragment never |
| Components.NonEmptyKeepsAll | tech-web/src/main/java/org/gamboni/tech/web/ui/AbstractComponent.java:107 | when no rendering is empty, none is dropped |
| Components.Rendered | tech-web/src/main/java/org/gamboni/tech/web/ui/AbstractComponent.java:106 | there is one rendering per entry, in order |
| Components.StyledItems | tech-web/src/main/java/org/gamboni/tech/web/ui/AbstractComponent.java:108 | each rendering becomes an item carrying the item style, in order |
| Components.StyledUl | tech-web/src/main/java/org/gamboni/tech/web/ui/AbstractComponent.java:103-110 | a styled list carries the list style and holds, in order, one styled item for each rendering other than the empty fragment, and no item holds the empty fragment |
| JavaScript.Resolve | tech-web/src/main/java/org/gamboni/tech/web/js/JavaScript.java:1339-1346 | a bound symbol stands for its value; an unbound one for the root scope's placeholder, which mentions no symbol and prints as `(unresolved Symbol#n)`; `JavaScriptFacts.ResolveAfterBinding` states how binding changes it |
| JavaScript.EscapeText | tech-web/src/main/java/org/gamboni/tech/web/js/JavaScript.java:46-57 | the inside of a single-quoted literal: backslashes doubled first, then quotes escaped; `JavaScriptFacts.EscapeTextPerChar` and `JavaScriptFacts.StringLiteralRoundTrip` prove it escapes per character and reads back |
| JavaScript.Format | tech-web/src/main/java/org/gamboni/tech/web/js/JavaScript.java:251-620 | the text of each kind of expression in a scope: literals, attribute access, operators with their operand positions, the ternary, calls, array access and array literals; a bound symbol prints its value, an unbound one the root scope's placeholder; the properties are `JavaScriptFacts.BoundSymbolPrintsItsValue` and `JavaScriptFacts.ClosedExpressionIgnoresScope` |
| JavaScript.FormatAt | tech-web/src/main/java/org/gamboni/tech/web/js/JavaScript.java:359-366 | an expression where a target precedence is accepted, bracketed when it binds more loosely; `JavaScriptFacts.BracketsExactlyWhenLooser` proves the bracketing happens exactly then |
| JavaScript.FreeSymbols | tech-web/src/main/java/org/gamboni/tech/web/js/JavaScript.java:251-661 | the symbols an expression mentions, in the source's order, with the receiver of a method call included; `JavaScriptFacts.FreeSymbolsAreOccurrences` proves they are exactly the occurring symbols |
| JavaScript.FreeSymbolsAsWritten | tech-web/src/main/java/org/gamboni/tech/web/js/JavaScript.java:251-661 | the same list as the source builds it, where a method call lists its arguments' symbols only; `JavaScriptFacts.ReceiverSymbolsOmittedAsWritten` shows what that loses |
| JavaScript.FormatStatement | tech-web/src/main/java/org/gamboni/tech/web/js/JavaScript.java:942-1093 | the text of a statement where declarations are forbidden: expression statements end in `;`, `if`/`else if`/`else` chains brace their bodies as needed, `let` and `for of` fail, and `assignIn` prints its statement with the symbol bound; see `JavaScriptFacts.BracesExactlyAboveBlock` and `JavaScriptFacts.DeclarationsNeedADeclaringScope` |
| JavaScript.FormatFragments | tech-web/src/main/java/org/gamboni/tech/web/js/JavaScript.java:761-780 | the fragments of a sequence printed one after the other, failing when one of them fails; `JavaScriptFacts.SeqPrintsItsFragments` states it for every sequence |
| JavaScript.StatementSymbols | tech-web/src/main/java/org/gamboni/tech/web/js/JavaScript.java:942-1205 | the free symbols of a statement, including the branches before an `else`/`else if` and the value bound by `assignIn`; `JavaScriptFacts.StatementSymbolsAreFreeOccurrences` proves they are exactly the free occurrences |
| JavaScript.StatementSymbolsAsWritten | tech-web/src/main/java/org/gamboni/tech/web/js/JavaScript.java:942-1205 | the statement symbols as the source collects them: `else` and `else if` drop the earlier branches and `assignIn` lists none; the three `…SymbolsOmittedAsWritten` lemmas exhibit each loss |
| JavaScript.DotOf | tech-web/src/main/java/org/gamboni/tech/web/js/JavaScript.java:290-300 | attribute access is a dot expression exactly when the name is an identifier, and an array access with the name's string literal otherwise |
| JavaScript.WithSymbolValue | tech-web/src/main/java/org/gamboni/tech/web/js/JavaScript.java:1326-1336 | binding succeeds exactly when the symbol has no value yet, adds that one symbol with its value, and keeps every other binding |
| JavaScript.Union | tech-web/src/main/java/org/gamboni/tech/web/js/JavaScript.java:627-638 | combining two symbol lists gives the first followed by the second, including when either is empty |
| JavaScript.Without | tech-web/src/main/java/org/gamboni/tech/web/js/JavaScript.java:800-806 | the remaining symbols are exactly the others |
| JavaScript.TernarySymbols | tech-web/src/main/java/org/gamboni/tech/web/js/JavaScript.java:503-521 | a ternary lists the condition's symbols, then those of the else branch, then those of the then branch, whichever are empty |
| JavaScript.Of | tech-web/src/main/java/org/gamboni/tech/web/js/JavaScript.java:943-961 | a statement stays itself when turned into a statement |
| JavaScript.ElseIfOf | tech-web/src/main/java/org/gamboni/tech/web/js/JavaScript.java:996-998 | adding an `else if` to an if-like statement, including the empty chain, gives an if block |
| JavaScriptFacts.BracketsExactlyWhenLooser | tech-web/src/main/java/org/gamboni/tech/web/js/JavaScript.java:360-366 | an expression is bracketed exactly when it binds more loosely than the position accepts, and printed as is otherwise |
| JavaScriptFacts.BoundSymbolPrintsItsValue | tech-web/src/main/java/org/gamboni/tech/web/js/JavaScript.java:1214-1222 | a bound symbol prints as its value would at the same position |
| JavaScriptFacts.SmallNumbers | tech-web/src/test/java/org/gamboni/tech/web/js/PrecedenceTest.java:12-14 | the literals 2, 3 and 4 print as themselves |
| JavaScriptFacts.SumTimesFour | tech-web/src/test/java/org/gamboni/tech/web/js/PrecedenceTest.java:18 | `(2+3)*4` keeps its brackets |
| JavaScriptFacts.TwoDividedBySum | tech-web/src/test/java/org/gamboni/tech/web/js/PrecedenceTest.java:20 | `2/(3+4)` keeps its brackets |
| JavaScriptFacts.ProductsAssociate | tech-web/src/test/java/org/gamboni/tech/web/js/PrecedenceTest.java:22-24 | products print as `2*3*4` whichever way they nest |
| JavaScriptFacts.Differences | tech-web/src/test/java/org/gamboni/tech/web/js/PrecedenceTest.java:26-30 | a difference on the right of a minus is bracketed, one on the left or a product on the right is not |
| JavaScriptFacts.MethodCallOnSum | tech-web/src/test/java/org/gamboni/tech/web/js/PrecedenceTest.java:32-33 | a method call on a sum brackets the receiver |
| JavaScriptFacts.MethodCallOnLiteral | tech-web/src/test/java/org/gamboni/tech/web/js/PrecedenceTest.java:35 | a method call on a literal does not bracket it |
| JavaScriptFacts.EscapeTextPerChar | tech-web/src/main/java/org/gamboni/tech/web/js/JavaScript.java:50-57 | the two replacements of a string literal amount to escaping each character on its own |
| JavaScriptFacts.UnescapeEscapedChars | tech-web/src/main/java/org/gamboni/tech/web/js/JavaScript.java:50-57 | reading back the per-character escape gives the original text |
| JavaScriptFacts.StringLiteralRoundTrip | tech-web/src/main/java/org/gamboni/tech/web/js/JavaScript.java:50-57 | a string literal is its text between single quotes, and reading the inside back gives the text |
| JavaScriptFacts.DotPrinting | tech-web/src/main/java/org/gamboni/tech/web/js/JavaScript.java:290-300 | attribute access prints `lhs.attr` for an identifier and `lhs['attr']` otherwise |
| JavaScriptFacts.ResolveAfterBinding | tech-web/src/main/java/org/gamboni/tech/web/js/JavaScript.java:1339-1346 | once bound, a symbol resolves to its value, and every other symbol resolves as before |
| JavaScriptFacts.RebindingFails | tech-web/src/main/java/org/gamboni/tech/web/js/JavaScript.java:1326-1336 | binding a symbol a second time is refused, whatever the value |
| JavaScriptFacts.FreeSymbolsAreOccurrences | tech-web/src/main/java/org/gamboni/tech/web/js/JavaScript.java:457-458 | the corrected free-symbol list of an expression names exactly the symbols occurring in it |
| JavaScriptFacts.AllFreeSymbolsAreOccurrences | tech-web/src/main/java/org/gamboni/tech/web/js/JavaScript.java:640-661 | the free symbols of a list name exactly the symbols occurring in its expressions |
| JavaScriptFacts.ClosedExpressionIgnoresScope | tech-web/src/main/java/org/gamboni/tech/web/js/JavaScript.java:1214-1222 | an expression without free symbols prints the same in every scope and at every position |
| JavaScriptFacts.ClosedListIgnoresScope | tech-web/src/main/java/org/gamboni/tech/web/js/JavaScript.java:640-661 | a list without free symbols prints the same in every scope |
| JavaScriptFacts.ReceiverSymbolsOmittedAsWritten | tech-web/src/main/java/org/gamboni/tech/web/js/JavaScript.java:553-555 | as written, a method call on a symbol reports no free symbols although its text depends on the symbol's binding |
| JavaScriptFacts.StatementSymbolsAreFreeOccurrences | tech-web/src/main/java/org/gamboni/tech/web/js/JavaScript.java:1041-1067 | the corrected statement symbols name exactly the symbols occurring outside their binder |
| JavaScriptFacts.FragmentListSymbolsAreFreeOccurrences | tech-web/src/main/java/org/gamboni/tech/web/js/JavaScript.java:761-780 | the symbols of a sequence name exactly the symbols occurring free in its fragments |
| JavaScriptFacts.FragmentSymbolsAreFreeOccurrences | tech-web/src/main/java/org/gamboni/tech/web/js/JavaScript.java:943-961 | the symbols of a fragment name exactly the symbols occurring free in it as a statement |
| JavaScriptFacts.ElseSymbolsOmittedAsWritten | tech-web/src/main/java/org/gamboni/tech/web/js/JavaScript.java:1059-1061 | as written, an `else` reports none of the symbols of the `if` it follows, although its text depends on them |
| JavaScriptFacts.ElseIfSymbolsOmittedAsWritten | tech-web/src/main/java/org/gamboni/tech/web/js/JavaScript.java:1074-1093 | as written, `if (Symbol#1) return; else if (x) return;` reports no free symbols, although symbol 1 occurs free in it |
| JavaScriptFacts.AssignInSymbolsOmittedAsWritten | tech-web/src/main/java/org/gamboni/tech/web/js/JavaScript.java:1202-1205 | as written, binding symbol 1 to `Symbol#2` around `Symbol#1;` reports no free symbols, although symbol 2 occurs free in it |
| JavaScriptFacts.SeqOfOne | tech-web/src/main/java/org/gamboni/tech/web/js/JavaScript.java:761-780 | a sequence of one fragment is that fragment as a statement, and an expression statement prints as the expression followed by `;` |
| JavaScriptFacts.SeqPrintsItsFragments | tech-web/src/main/java/org/gamboni/tech/web/js/JavaScript.java:753-780 | a sequence of any length prints its fragments one after the other |
| JavaScriptFacts.BracesExactlyAboveBlock | tech-web/src/main/java/org/gamboni/tech/web/js/JavaScript.java:963-965 | braces are added exactly to statements ranked above a block |
| JavaScriptFacts.DeclarationsNeedADeclaringScope | tech-web/src/main/java/org/gamboni/tech/web/js/JavaScript.java:1274-1276 | `let` and `for of` cannot be printed where declarations are forbidden |
| JsPrinter.AppendArguments | tech-web/src/main/java/org/gamboni/tech/web/js/JavaScript.java:597-603 | the argument loop appends the printed arguments separated by commas and closes the bracket |
| JsPrinter.FormatMethodCall | tech-web/src/main/java/org/gamboni/tech/web/js/JavaScript.java:537-546 | the string-builder loop prints a method call exactly as the recursive printer does: receiver at atom level, a dot, the name and the arguments |
| JsPrinter.FormatFunCall | tech-web/src/main/java/org/gamboni/tech/web/js/JavaScript.java:596-604 | the string-builder loop prints a function call exactly as the recursive printer does |
| JsPrinter.FreeSymbolsOfAllSnoc | tech-web/src/main/java/org/gamboni/tech/web/js/JavaScript.java:640-661 | one more expression adds its symbols at the end |
| JsPrinter.CollectFreeSymbols | tech-web/src/main/java/org/gamboni/tech/web/js/JavaScript.java:640-661 | the loop that keeps the first non-empty list and builds a new one on the second collects the symbols of all expressions in order, which are exactly the symbols occurring in them |
| JsPrinter.Candidate | tech-web/src/main/java/org/gamboni/tech/web/js/JavaScript.java:1284-1295 | the first name tried is the base, and the later ones extend it |
| JsPrinter.CandidateInjective | tech-web/src/main/java/org/gamboni/tech/web/js/JavaScript.java:1284-1295 | different attempts give different names |
| JsPrinter.Candidates | tech-web/src/main/java/org/gamboni/tech/web/js/JavaScript.java:1284-1295 | the first candidates are all among those tried |
| JsPrinter.CandidatesAreTheFirstN | tech-web/src/main/java/org/gamboni/tech/web/js/JavaScript.java:1284-1295 | a candidate is among the first n tried exactly when its index is below n |
| JsPrinter.CandidatesSize | tech-web/src/main/java/org/gamboni/tech/web/js/JavaScript.java:1284-1295 | n attempts try n different names |
| JsPrinter.NameScope.constructor | tech-web/src/main/java/org/gamboni/tech/web/js/JavaScript.java:1284-1295 | an empty scope has handed out no name |
| JsPrinter.NameScope.FreshVariableName | tech-web/src/main/java/org/gamboni/tech/web/js/JavaScript.java:1284-1295 | the name handed out was not used before and is now recorded; it is the base when the base is free, and otherwise the first candidate not yet used |
| JsPrinter.FreshNamesFromAnEmptyScope | tech-web/src/main/java/org/gamboni/tech/web/js/JavaScript.java:1306-1308 | the first two fresh variables of an empty scope are `v` and `v1` |
| JsPrinter.ParameterName | tech-web/src/main/java/org/gamboni/tech/web/js/JavaScript.java:220-224 | a parameter name is `p` followed by digits |
| JsPrinter.ParameterNamesDistinct | tech-web/src/main/java/org/gamboni/tech/web/js/JavaScript.java:220-224 | different parameter positions give different names |
| JsPrinter.FunN.constructor | tech-web/src/main/java/org/gamboni/tech/web/js/JavaScript.java:217-219 | a new function has its name and no parameters |
| JsPrinter.FunN.AddParameter | tech-web/src/main/java/org/gamboni/tech/web/js/JavaScript.java:220-224 | a new parameter is named after the number of parameters so far, is appended, and differs from every earlier one |
| JsPrinter.ParameterNamesAreNumbered | tech-web/src/main/java/org/gamboni/tech/web/js/JavaScript.java:220-224 | the first n parameters are named after their positions, so a name given later is never among them |
| JsPrinter.FunN.Declaration | tech-web/src/main/java/org/gamboni/tech/web/js/JavaScript.java:225-233 | the declaration prints exactly when the body prints, and is `function`, the name, the parameters present at that time joined by `, `, then the body in braces on lines of its own |
| JsPrinter.FunN.Call | tech-web/src/main/java/org/gamboni/tech/web/js/JavaScript.java:235-240 | a call exists exactly when every parameter has a value, and passes the values in parameter order |
| JsPrinter.ArgumentValues | tech-web/src/main/java/org/gamboni/tech/web/js/JavaScript.java:235-240 | the arguments exist exactly when every parameter has a value, one per parameter in order |
| ClientStateHandlers.ConditionOf | tech-history/src/main/java/org/gamboni/tech/history/ClientStateHandler.java:96-114 | an expectation yields its own condition; a type check yields a condition exactly when the class name starts with `Js`, and that condition compares the event's `@type` with the name without that prefix |
| ClientStateHandlers.TypeCheckReadsTheTypeProperty | tech-history/src/main/java/org/gamboni/tech/history/ClientStateHandler.java:112 | reading `@type` through the general attribute access gives the bracketed form the type check uses |
| ClientStateHandlers.KeysAreTheTexts | tech-history/src/main/java/org/gamboni/tech/history/ClientStateHandler.java:48-61 | the keys of a condition list are exactly the texts its conditions print as |
| ClientStateHandlers.KeysSnoc | tech-history/src/main/java/org/gamboni/tech/history/ClientStateHandler.java:48-61 | one more condition adds its text to the keys |
| ClientStateHandlers.Gathered | tech-history/src/main/java/org/gamboni/tech/history/ClientStateHandler.java:93-115 | the conditions of the expectations without repeated texts, in first-seen order, failing once one is missing; see `ClientStateHandlers.StatedConditionsAreKept` and `ClientStateHandlers.KeptConditionsWereStated` |
| ClientStateHandlers.PutGroup | tech-history/src/main/java/org/gamboni/tech/history/ClientStateHandler.java:116 | a multimap put keyed by condition set: the body joins the group with the same set, once, or starts a new group at the end; `ClientStateHandlers.PutGroupKeys` and `ClientStateHandlers.PutGroupFragments` prove it |
| ClientStateHandlers.Grouped | tech-history/src/main/java/org/gamboni/tech/history/ClientStateHandler.java:63-69 | the groups the handlers' outcomes build in order, failing once one is missing |
| ClientStateHandlers.Evaluated | tech-history/src/main/java/org/gamboni/tech/history/ClientStateHandler.java:63-69 | the groups the handlers build for an event; `ClientStateHandlers.GroupsFollowTheHandlers` characterises them |
| ClientStateHandlers.AndAll | tech-history/src/main/java/org/gamboni/tech/history/ClientStateHandler.java:78-82 | the left-to-right conjunction of the conditions, `true` when there are none; `ClientStateHandlers.AndAllPrints` gives its text |
| ClientStateHandlers.UpdateStatement | tech-history/src/main/java/org/gamboni/tech/history/ClientStateHandler.java:63-90 | the `if`/`else if` chain over the groups, failing when a type check fails; `ClientStateHandlers.UpdateBranches` characterises it |
| ClientStateHandlers.Init | tech-history/src/main/java/org/gamboni/tech/history/ClientStateHandler.java:145-147 | sets the stamp global to the given value; `ClientStateHandlers.InitPrints` gives its text |
| ClientStateHandlers.AddCondition | tech-history/src/main/java/org/gamboni/tech/history/ClientStateHandler.java:93-98 | adding to the ordered set keeps the conditions and adds the new one at the end exactly when its text is new, so no two kept conditions share a text |
| ClientStateHandlers.ConditionsFailExactly | tech-history/src/main/java/org/gamboni/tech/history/ClientStateHandler.java:93-115 | gathering a matcher's conditions fails exactly when one of its type checks fails |
| ClientStateHandlers.ConditionKeysAreDistinct | tech-history/src/main/java/org/gamboni/tech/history/ClientStateHandler.java:93-115 | the gathered conditions form an ordered set: no two of them print as the same text |
| ClientStateHandlers.StatedConditionsAreKept | tech-history/src/main/java/org/gamboni/tech/history/ClientStateHandler.java:93-115 | the text of every condition a matcher states is among those kept |
| ClientStateHandlers.KeptConditionsWereStated | tech-history/src/main/java/org/gamboni/tech/history/ClientStateHandler.java:93-115 | every condition kept is one the matcher stated |
| ClientStateHandlers.AddNew | tech-history/src/main/java/org/gamboni/tech/history/ClientStateHandler.java:65 | appending to a duplicate-free list keeps it duplicate-free and holds exactly the old elements plus the new one |
| ClientStateHandlers.Unique | tech-history/src/main/java/org/gamboni/tech/history/ClientStateHandler.java:65 | the deduplicated list holds exactly the elements of the input, each once |
| ClientStateHandlers.GroupKeys | tech-history/src/main/java/org/gamboni/tech/history/ClientStateHandler.java:71-72 | there is one condition set per group, in group order |
| ClientStateHandlers.PutGroupKeys | tech-history/src/main/java/org/gamboni/tech/history/ClientStateHandler.java:116 | a put adds the condition set as a new last key exactly when it is not already a key, and keeps the key order otherwise |
| ClientStateHandlers.PutGroupFragments | tech-history/src/main/java/org/gamboni/tech/history/ClientStateHandler.java:116 | a put adds the body to the bodies of its own condition set, unless already there, and leaves the bodies of every other set alone |
| ClientStateHandlers.Evaluate | tech-history/src/main/java/org/gamboni/tech/history/ClientStateHandler.java:92-116 | a handler contributes its gathered conditions and the body built from the matcher's wrapped event, exactly when gathering succeeds |
| ClientStateHandlers.EvaluatedFailsExactly | tech-history/src/main/java/org/gamboni/tech/history/ClientStateHandler.java:63-69 | filling the multimap fails exactly when some handler's type check fails |
| ClientStateHandlers.FailingHandler | tech-history/src/main/java/org/gamboni/tech/history/ClientStateHandler.java:63-90 | a single handler whose type check fails makes the whole update fail |
| ClientStateHandlers.GroupsFollowTheHandlers | tech-history/src/main/java/org/gamboni/tech/history/ClientStateHandler.java:63-69 | there is one group per distinct condition set, in order of first registration, and each group holds the bodies of exactly the handlers with that set, in registration order |
| ClientStateHandlers.AndPrints | tech-history/src/main/java/org/gamboni/tech/history/ClientStateHandler.java:81 | a conjunction prints both sides, each bracketed when looser than `&&` |
| ClientStateHandlers.ConjunctTexts | tech-history/src/main/java/org/gamboni/tech/history/ClientStateHandler.java:78-82 | each condition is printed as an operand of `&&` |
| ClientStateHandlers.AndAllPrints | tech-history/src/main/java/org/gamboni/tech/history/ClientStateHandler.java:78-82 | a group's guard prints as its conditions, in order, joined by ` && ` |
| ClientStateHandlers.Chain | tech-history/src/main/java/org/gamboni/tech/history/ClientStateHandler.java:71-89 | the reduced chain is the empty chain exactly when there are no groups, and an if block otherwise |
| ClientStateHandlers.ChainBranches | tech-history/src/main/java/org/gamboni/tech/history/ClientStateHandler.java:71-89 | the chain has one branch per group, in group order, each guarded by the conjunction of the group's conditions and running its bodies |
| ClientStateHandlers.FragmentsOfOwnKey | tech-history/src/main/java/org/gamboni/tech/history/ClientStateHandler.java:71-86 | when groups have distinct condition sets, looking up a group's set finds that group's bodies |
| ClientStateHandlers.UpdateBranches | tech-history/src/main/java/org/gamboni/tech/history/ClientStateHandler.java:63-90 | applying an update gives one `if`/`else if` branch per distinct condition set, in order of first registration, guarded by its conjunction and running the bodies of the handlers with that set, in registration order |
| ClientStateHandlers.InitPrints | tech-history/src/main/java/org/gamboni/tech/history/ClientStateHandler.java:145-147 | setting the stamp prints as one assignment `stamp = value;` |
| ClientStateHandlers.ClientStateHandler.constructor | tech-history/src/main/java/org/gamboni/tech/history/ClientStateHandler.java:40 | a new handler has no event handlers |
| ClientStateHandlers.ClientStateHandler.AddHandler | tech-history/src/main/java/org/gamboni/tech/history/ClientStateHandler.java:42-46 | a handler is registered after the others, and the object itself is returned |
| ClientStateHandlers.ClientStateHandler.CollectConditions | tech-history/src/main/java/org/gamboni/tech/history/ClientStateHandler.java:93-115 | the callbacks gather exactly the specified conditions |
| ClientStateHandlers.ClientStateHandler.AddHandlerToMultimap | tech-history/src/main/java/org/gamboni/tech/history/ClientStateHandler.java:92-117 | the multimap gets exactly one put, of the handler's conditions and body, unless a type check fails |
| ClientStateHandlers.ClientStateHandler.ApplyUpdate | tech-history/src/main/java/org/gamboni/tech/history/ClientStateHandler.java:63-90 | the loop over the handlers and the reduction build exactly the specified update statement |
| ClientStateHandlers.ClientStateHandler.HandleEvent | tech-history/src/main/java/org/gamboni/tech/history/ClientStateHandler.java:122-132 | the message is bound to a fresh symbol, the stamp is set from its `stamp` property, and each of its `updates` is applied in turn, failing exactly when applying an update fails |
| ClientStateHandlers.ClientStateHandler.AddTo | tech-history/src/main/java/org/gamboni/tech/history/ClientStateHandler.java:139-143 | the page script gains exactly the declaration `stamp = 0;` while it accepts members, and the handler itself is returned |
| ClientStateHandlers.IdentifierStamp | tech-history/src/main/java/org/gamboni/tech/history/ClientStateHandler.java:128-129 | `stamp` and `updates` are identifiers, so they are read with a dot |
| ClientStateHandlers.StampDeclaration | tech-web/src/main/java/org/gamboni/tech/web/js/JavaScript.java:139-144 | the stamp global is declared as `stamp = 0;` followed by a newline |
| HttpRequests.SetRequestHeader | tech-web/src/main/java/org/gamboni/tech/web/ui/HttpRequest.java:38 | the `setRequestHeader` call for one header, with the name as a string literal and the value printed |
| HttpRequests.HeaderLines | tech-web/src/main/java/org/gamboni/tech/web/ui/HttpRequest.java:38-39 | there is one `setRequestHeader` line per header name, in the map's iteration order |
| HttpRequests.KeysCount | tech-web/src/main/java/org/gamboni/tech/web/ui/HttpRequest.java:38-39 | an iteration order that names each header once is as long as the header map |
| HttpRequests.DistinctCount | tech-web/src/main/java/org/gamboni/tech/web/ui/HttpRequest.java:38-39 | a list without repetitions has as many distinct elements as entries |
| HttpRequests.Impl.constructor | tech-web/src/main/java/org/gamboni/tech/web/ui/HttpRequest.java:25-29 | a new request keeps its verb, URL and body and has no headers |
| HttpRequests.Impl.SetHeader | tech-web/src/main/java/org/gamboni/tech/web/ui/HttpRequest.java:43-46 | a header is recorded, a later value for the same name replacing the earlier one |
| HttpRequests.Impl.Statements | tech-web/src/main/java/org/gamboni/tech/web/ui/HttpRequest.java:30-41 | the request is created, its ready-state handler runs the callback on the response text, it is opened with the verb literal and URL, each header is set once in the map's order, and the body is sent last |
| HttpRequests.Impl.Subscribe | tech-web/src/main/java/org/gamboni/tech/web/ui/HttpRequest.java:30-41 | the code is the request statements concatenated: creating the request, installing the ready-state handler that runs the callback on the response text, opening it, one line per header, and sending the body |
| HttpRequests.Parametric.constructor | tech-web/src/main/java/org/gamboni/tech/web/ui/HttpRequest.java:50-52 | a new parametric request has no headers and no requests |
| HttpRequests.Parametric.CopyHeaders | tech-web/src/main/java/org/gamboni/tech/web/ui/HttpRequest.java:53-57 | the new request receives every recorded header and is registered and returned, so every request carries every recorded header |
| HttpRequests.Parametric.SetHeader | tech-web/src/main/java/org/gamboni/tech/web/ui/HttpRequest.java:59-63 | the header is recorded and forwarded to every request made so far, keeping every request up to date |
| Stamps.StampCollection | tech-history/src/main/java/org/gamboni/tech/history/Stamped.java:6-17 | the stamp of a collection is the highest stamp of its items, or zero when it is empty |
| Stamps.StampCollectionIgnoresOrder | tech-history/src/main/java/org/gamboni/tech/history/Stamped.java:13-17 | the stamp does not depend on the order of the items |
| Stamps.StampCollectionSnoc | tech-history/src/main/java/org/gamboni/tech/history/Stamped.java:13-17 | one more item raises the stamp to its own exactly when its own is higher |
| InMemoryHistoryStores.InMemoryHistoryStore.constructor | tech-history/src/main/java/org/gamboni/tech/history/InMemoryHistoryStore.java:14 | a new store's stamp is zero |
| InMemoryHistoryStores.InMemoryHistoryStore.GetStamp | tech-history/src/main/java/org/gamboni/tech/history/InMemoryHistoryStore.java:16-19 | reading the stamp gives the last stamp handed out and changes nothing |
| InMemoryHistoryStores.InMemoryHistoryStore.IncrementStamp | tech-history/src/main/java/org/gamboni/tech/history/InMemoryHistoryStore.java:21-24 | a change gets a stamp one above the previous one, which becomes the current stamp |
| InMemoryHistoryStores.IssueStamps | tech-history/src/main/java/org/gamboni/tech/history/InMemoryHistoryStore.java:10-24 | successive changes of a new store receive 1, 2, …, n in strictly increasing order, and the current stamp ends at n |
| HistoryStores.Put | tech-history/src/main/java/org/gamboni/tech/history/HistoryStore.java:61 | a multimap put adds the event to the target's events (a duplicate collapses), leaves every other target alone and never creates an empty entry |
| HistoryStores.Collected | tech-history/src/main/java/org/gamboni/tech/history/HistoryStore.java:66-71 | the notifications of an update hold an event for a target exactly when the update notified that pair, with no empty entries |
| HistoryStores.UpdateSession.constructor | tech-history/src/main/java/org/gamboni/tech/history/HistoryStore.java:58-62 | a session starts with its stamp and no notifications |
| HistoryStores.UpdateSession.Notify | tech-history/src/main/java/org/gamboni/tech/history/HistoryStore.java:61 | one notification is one multimap put |
| HistoryStores.PerClientUpdates.Get | tech-history/src/main/java/org/gamboni/tech/history/HistoryStore.java:42-51 | a target gets nothing exactly when it has no events, and otherwise its events with the update's stamp |
| HistoryStores.PerClientUpdates.HasEvents | tech-history/src/main/java/org/gamboni/tech/history/HistoryStore.java:53-55 | an update has events exactly when some target gets some |
| HistoryStores.Update | tech-history/src/main/java/org/gamboni/tech/history/HistoryStore.java:66-71 | an update takes exactly one new stamp from the store, runs the work in a session with that stamp, and returns what the work notified |
| HistoryStores.AddListener | tech-history/src/main/java/org/gamboni/tech/history/HistoryStore.java:73-75 | a new listener gets the store's current stamp together with its backlog |
| HistoryStores.UpdateDeliversWhatWasNotified | tech-history/src/main/java/org/gamboni/tech/history/HistoryStore.java:42-71 | after an update, a target gets nothing exactly when it was notified of nothing, and otherwise exactly its notified events under the update's stamp |
| PersistedHistoryStores.Reachable | tech-persistence/src/main/java/org/gamboni/tech/persistence/PersistedHistoryStore.java:75-80 | the clients reached are exactly those whose query yields an event |
| PersistedHistoryStores.Notified | tech-persistence/src/main/java/org/gamboni/tech/persistence/PersistedHistoryStore.java:73-80 | notifying adds to each registered client the event its query yields, if any, and changes nothing else |
| PersistedHistoryStores.UnregisteredClientGetsNothing | tech-persistence/src/main/java/org/gamboni/tech/persistence/PersistedHistoryStore.java:73-80 | a client that is not registered gets no new event, and its absence changes nothing for the others |
| PersistedHistoryStores.NotifyingNoClient | tech-persistence/src/main/java/org/gamboni/tech/persistence/PersistedHistoryStore.java:73-80 | with no registered client, notifying changes nothing |
| PersistedHistoryStores.NotifyOneMore | tech-persistence/src/main/java/org/gamboni/tech/persistence/PersistedHistoryStore.java:75-79 | one more registered client is one more multimap put, or none when its query yields nothing |
| PersistedHistoryStores.OneMoreEvents | tech-persistence/src/main/java/org/gamboni/tech/persistence/PersistedHistoryStore.java:75-79 | one more registered client changes only its own events |
| PersistedHistoryStores.OneMoreReachable | tech-persistence/src/main/java/org/gamboni/tech/persistence/PersistedHistoryStore.java:75-79 | one more registered client is reached exactly when its query yields an event |
| PersistedHistoryStores.SameEvents | tech-persistence/src/main/java/org/gamboni/tech/persistence/PersistedHistoryStore.java:73-80 | two multimaps with the same keys that give every target the same events are equal |
| PersistedHistoryStores.Restricted | tech-persistence/src/main/java/org/gamboni/tech/persistence/PersistedHistoryStore.java:75 | restricting the sessions keeps exactly the chosen clients with their queries |
| PersistedHistoryStores.PersistedHistoryStore.constructor | tech-persistence/src/main/java/org/gamboni/tech/persistence/PersistedHistoryStore.java:34 | a new store has no listening client |
| PersistedHistoryStores.PersistedHistoryStore.AddListener | tech-persistence/src/main/java/org/gamboni/tech/persistence/PersistedHistoryStore.java:48-55 | the client is registered with its query, replacing any earlier one, and gets the stamp with its backlog |
| PersistedHistoryStores.PersistedHistoryStore.RemoveListener | tech-persistence/src/main/java/org/gamboni/tech/persistence/PersistedHistoryStore.java:57-60 | the client is forgotten, and nothing changes when it was not registered |
| PersistedHistoryStores.PersistedHistoryStore.NotifyListeners | tech-persistence/src/main/java/org/gamboni/tech/persistence/PersistedHistoryStore.java:73-80 | the loop over the registered clients gives exactly the specified notifications, whatever the order of the clients |
| BroadcastTargets.Failing | tech-quarkus/src/main/java/org/gamboni/tech/quarkus/QuarkusWebSocket.java:85-91 | the failing close tasks are exactly those that throw, kept in order |
| BroadcastTargets.FailingSnoc | tech-quarkus/src/main/java/org/gamboni/tech/quarkus/QuarkusWebSocket.java:85-91 | one more task adds itself to the failing ones exactly when it throws |
| BroadcastTargets.SessionBroadcastTarget.constructor | tech-quarkus/src/main/java/org/gamboni/tech/quarkus/QuarkusWebSocket.java:34-42 | a new target is open with no close tasks and has sent nothing |
| BroadcastTargets.SessionBroadcastTarget.SendOrLog | tech-quarkus/src/main/java/org/gamboni/tech/quarkus/QuarkusWebSocket.java:49-55 | the payload is sent once, and nothing else changes |
| BroadcastTargets.SessionBroadcastTarget.SendOrThrow | tech-quarkus/src/main/java/org/gamboni/tech/quarkus/QuarkusWebSocket.java:44-47 | sending or throwing behaves as sending or logging |
| BroadcastTargets.SessionBroadcastTarget.OnClose | tech-quarkus/src/main/java/org/gamboni/tech/quarkus/QuarkusWebSocket.java:57-72 | while open the task waits in order, and once closed it runs at once, failing exactly when it throws |
| BroadcastTargets.SessionBroadcastTarget.IsOpen | tech-quarkus/src/main/java/org/gamboni/tech/quarkus/QuarkusWebSocket.java:74-77 | a target reports open until it has been marked closed |
| BroadcastTargets.SessionBroadcastTarget.MarkClosed | tech-quarkus/src/main/java/org/gamboni/tech/quarkus/QuarkusWebSocket.java:79-93 | closing an open target runs every waiting task in order, logs those that throw, goes on past them and forgets them; closing a closed target fails and changes nothing |
| BroadcastTargets.RunTasks | tech-quarkus/src/main/java/org/gamboni/tech/quarkus/QuarkusWebSocket.java:85-91 | running the close tasks runs every one of them in order and logs a warning for exactly those that throw, in order |
| BroadcastTargets.CloseListenersRunOnce | tech-quarkus/src/main/java/org/gamboni/tech/quarkus/QuarkusWebSocket.java:57-93 | a task registered before the close and one registered after both run exactly once, in that order, and a second close fails |
| ClientCollections.ClientCollection.constructor | tech-web/src/main/java/org/gamboni/tech/web/ws/ClientCollection.java:13 | a new collection has no clients |
| ClientCollections.ClientCollection.Put | tech-web/src/main/java/org/gamboni/tech/web/ws/ClientCollection.java:16-18 | the client is stored under its session, replacing the earlier one |
| ClientCollections.ClientCollection.Get | tech-web/src/main/java/org/gamboni/tech/web/ws/ClientCollection.java:20-22 | a session has a client exactly when one is stored for it, and then it is that client |
| ClientCollections.ClientCollection.Remove | tech-web/src/main/java/org/gamboni/tech/web/ws/ClientCollection.java:24-30 | the session is forgotten and its client, if any, is returned and closed, which runs its waiting close tasks, records one warning per failing task and sends nothing; a client already closed is left as it was; the other clients are untouched |
| ClientCollections.ClientCollection.Broadcast | tech-web/src/main/java/org/gamboni/tech/web/ws/ClientCollection.java:32-43 | each open client is sent the payload exactly once, and closed clients get nothing |
| ClientCollections.ClientCollection.BroadcastEach | tech-web/src/main/java/org/gamboni/tech/web/ws/ClientCollection.java:49-60 | each open client is sent the payload computed for it, when there is one, and closed clients get nothing |
| QuarkusWebSockets.QuarkusWebSocket.constructor | tech-quarkus/src/main/java/org/gamboni/tech/quarkus/QuarkusWebSocket.java:25-31 | a new endpoint has no clients |
| QuarkusWebSockets.QuarkusWebSocket.OnOpen | tech-quarkus/src/main/java/org/gamboni/tech/quarkus/QuarkusWebSocket.java:110-115 | an opened session gets a new open target with no close tasks, replacing any earlier one, and the other sessions keep theirs |
| QuarkusWebSockets.QuarkusWebSocket.OnClose | tech-quarkus/src/main/java/org/gamboni/tech/quarkus/QuarkusWebSocket.java:125-130 | a closing session is forgotten; its target is closed, running its close tasks, and its listener leaves the store |
| QuarkusWebSockets.QuarkusWebSocket.OnError | tech-quarkus/src/main/java/org/gamboni/tech/quarkus/QuarkusWebSocket.java:132-137 | a failing session is handled as a closing one, the error only being logged |
| QuarkusWebSockets.QuarkusWebSocket.RemoveSession | tech-quarkus/src/main/java/org/gamboni/tech/quarkus/QuarkusWebSocket.java:139-144 | the session is forgotten; a session that had a target has it closed and its listener removed from the store, while an unknown session leaves the store untouched |
| QuarkusWebSockets.QuarkusWebSocket.Broadcast | tech-quarkus/src/main/java/org/gamboni/tech/quarkus/QuarkusWebSocket.java:150-152 | each client is sent the payload computed for its session, when there is one, and nothing else about any client changes |
| QuarkusWebSockets.ErrorThenClose | tech-quarkus/src/main/java/org/gamboni/tech/quarkus/QuarkusWebSocket.java:125-144 | an error followed by a close of the same session removes its listener at most once and changes nothing more |

## Left out

- Sending a payload is an append to the target's `sent` log. The websocket write and the JSON serialisation (`toJsonString`) are not modelled.
- Running a close task is an append to the target's `ran` log. A task's failure is a flag on the task.
- Concurrency (`synchronized`, `volatile`, the copy of the client set taken under a lock) is not modelled. Every operation runs sequentially.
- `HashMap` and `HashSet` iteration order is not modelled. `HttpRequests.Impl.Statements` takes the header order as a parameter. `PersistedHistoryStore.NotifyListeners` and the broadcasts are proved for every order.
- The global `Symbol.next` counter is not modelled. Symbols carry explicit ids, and the DOM-creation functions thread the next free id.
- HistoryStores.StampedEventList holds its events as a multiset, so the order of events within one update is not modelled. A `HashMultimap` does not keep it either.
- The stamps are unbounded integers. Java's `long` wrap-around after 2^63 - 1 increments is not modelled.
- The database side of the persisted history store is not modelled: its stamp sequence, `search`, `find` and the transactions. PersistedHistoryStores.PersistedHistoryStore.AddListener takes the current stamp and the client's backlog as parameters, because `internalAddListener` is abstract.
- `onMessage` and `handleMessage` are abstract in the websocket endpoint, and `helloValue` is abstract in the client state handler. Neither is modelled.
- QuarkusWebSockets.QuarkusWebSocket.RemoveSession calls `removeListener` on the persisted store. The `HistoryStore` shown does not declare that method.
- PersistedHistoryStore passes three type arguments to a four-parameter `HistoryStore`. The model gives both stores one event type.
- ClientCollections.ClientCollection.Put requires the client's own session to be the key it is stored under. The websocket endpoint always stores targets this way, and the rule makes distinct entries distinct targets, which the source's `Set.copyOf` relies on.
- `SessionBroadcastTarget.equals` is `BroadcastTargets.SessionBroadcastTarget.Equals`, which compares sessions. Its `hashCode` and `toString` are not modelled.
- ClientStateHandlers.PutGroupFragments: the multimap put removes duplicate bodies by structural equality. `LinkedHashMultimap` removes them by the fragments' own `equals`, which for most fragments is identity.
- The generated `JsStampedEventList` is not part of this model. Its `stamp()` and `updates()` are taken to be plain property reads.
- `ClientStateHandlerTest` uses an `expectOneOf` callback that the handler does not define, so that test is not reflected here.
- Identifiers are recognised with an ASCII approximation of Java's Unicode identifier predicates.
- StringValues.ToLowerCase folds a constant with an ASCII-only lower-casing that keeps the length. Java's `toLowerCase(Locale.ROOT)` maps all of Unicode (`É` to `é`) and can change the length (`İ`).
- Css.EnumClass, Css.EnumClasses and the constant branch of Css.EnumValueClass lower-case enum names the same ASCII-only way. The source uses Java's default-locale `toLowerCase`.
- StringValues.Substring and StringValues.Slice count positions in Unicode characters, one per `char` of the model's strings. Java's `substring` counts UTF-16 code units, so the two agree only on text without supplementary characters.
- Pages.AbstractPage keys the `onLoad` parameters by their names, and so does `JsPrinter.FunN.Call`. `AbstractPage.java` declares a `String`-keyed map but stores in it the expression `addParameter` returns. It also calls `JsExpression.of(paramName)`, which the shown `JavaScript.java` does not define, and it passes that map to an `invoke` that takes expression keys.
- The declaring scope is modelled only for fresh names (`JsPrinter.NameScope`). Printing `let` and `for of` is modelled in the scope that forbids declarations, where the source throws.
- JsPrinter.FunN.Declaration prints the body in that declaration-free printer. A body that declares variables therefore gives `None`, where the source would print it with fresh names.
- Pages.AbstractPage.RenderScript inherits that limit: a load body that declares variables makes it fail, where the source prints the declaration.
- The wrapping scope's `freshVariableName(base)` ignores `base` and is not modelled.
- `Scope.FOR_TOSTRING` is not modelled separately. The `toString` of an expression is its printing in an empty, declaration-free scope, which agrees with it for everything the model prints.
- Formatting a symbol bound to itself loops forever in the source. The model prints a bound symbol's value without that symbol's own binding, which agrees with the source wherever the source terminates.
- `JsLambda`, the browser-side websocket and timer builders, the view templates, and everything built on generated `Js*` classes are not modelled.
- `NumberValue`, `RatioValue` and `DateValue` are not modelled: they involve floating point and the clock. Their category behaviour is the one `Values.MapWith` proves for every wrapper.
- `Css.Properties` (a reflective proxy), the reflective `Css` initialiser and `Css.getUrl` (Guava `CaseFormat`) are not modelled.
- `IdentifiedElement` is not modelled: its constructor does not match the call in `Element.withId`.
- The framework glue is not modelled: SparkWebSocket, QuarkusPage, QuarkusDynamicPage, SparkScript, the annotation processor and the build files.
- Html.java's `eventHandler`, which prints an arrow function at creation time, is not modelled. The other attribute kinds are.
- Markup.ContentsToString states only the empty case. Its other results are stated through Markup.ToString for elements.
- Css.ClassNameText states only the constant case. A dynamic name prints its JavaScript, and the model has no property of that text.

## Findings

| source | as written | input that shows it | evidently intended | confidence | as-written member | corrected member |
|---|---|---|---|---|---|---|
| tech-web/src/main/java/org/gamboni/tech/web/ui/Html.java:56 | `escape(Value)` replaces `&` with `amp;`, without the leading ampersand | the constant texts `&` and `amp;` both render as `amp;` | `&amp;`, as `escape(String)` does at line 40 | high (not executed) | Markup.EscapeValueAsWritten, Markup.EscapeValueAsWrittenLosesAmpersands | Markup.EscapeValue, Markup.ToString |
| tech-web/src/main/java/org/gamboni/tech/web/js/JavaScript.java:553-555 | a method call's free symbols are its arguments' only, and the receiver's are dropped | `Symbol#1.remove()` reports no free symbols, yet prints `x.remove()` or `(unresolved Symbol#1).remove()` depending on the scope | the receiver's symbols followed by the arguments', as a function call does at line 612 | medium (not executed) | JavaScript.FreeSymbolsAsWritten, JavaScriptFacts.ReceiverSymbolsOmittedAsWritten | JavaScript.FreeSymbols, JavaScriptFacts.FreeSymbolsAreOccurrences |
| tech-web/src/main/java/org/gamboni/tech/web/js/JavaScript.java:1059-1061 | the free symbols of `if (c) … else …` are those of the else body only | `if (Symbol#1) return; else x;` reports no free symbols, yet its condition needs a binding for symbol 1 | the symbols of the `if` before it followed by the else body's | medium (not executed) | JavaScript.StatementSymbolsAsWritten, JavaScriptFacts.ElseSymbolsOmittedAsWritten | JavaScript.StatementSymbols, JavaScriptFacts.StatementSymbolsAreFreeOccurrences |
| tech-web/src/main/java/org/gamboni/tech/web/js/JavaScript.java:1074-1093 | an `else if` (`IfChain`) reports the free symbols of its own condition and body only, and those of the branches before it are dropped | `if (Symbol#1) return; else if (x) return;` reports no free symbols, yet its first condition needs a binding for symbol 1 | the symbols of the branches before it followed by its own | medium (not executed) | JavaScript.StatementSymbolsAsWritten, JavaScriptFacts.ElseIfSymbolsOmittedAsWritten | JavaScript.StatementSymbols, JavaScriptFacts.StatementSymbolsAreFreeOccurrences |
| tech-web/src/main/java/org/gamboni/tech/web/js/JavaScript.java:1202-1205 | `assignIn` reports no free symbols at all | binding symbol 1 to `Symbol#2` in `Symbol#1;` reports nothing, yet printing it needs a binding for symbol 2 | the value's symbols followed by the body's other than the bound one | medium (not executed) | JavaScript.StatementSymbolsAsWritten, JavaScriptFacts.AssignInSymbolsOmittedAsWritten | JavaScript.StatementSymbols, JavaScriptFacts.StatementSymbolsAreFreeOccurrences |
