/** The fixed text of the place pages of bingo/generate_indexes.py: the page head, cut at its
    placeholders, and the page tail. */
module IndexTemplate {
  // The head template, cut at its three placeholders (the title twice, then the description).
  const HeadBeforeTitle: string := @"<!DOCTYPE html>
<html lang=""nl"">
<head>
  <meta charset=""utf-8"">
  <meta name=""viewport"" content=""width=device-width, initial-scale=1"">
  <title>"

  const HeadBeforeHeading: string := @"</title>
  <style>
    :root { --bg:#fafafa; --fg:#1a1a1a; --muted:#666; --accent:#1e88e5; --card-bg:#fff; --card-border:#eee; --maxw:900px; }
    html,body{margin:0;padding:0;background:var(--bg);color:var(--fg);font-family:-apple-system,BlinkMacSystemFont,""Segoe UI"",Roboto,""Helvetica Neue"",Arial,system-ui,sans-serif;line-height:1.6}
    .container{max-width:var(--maxw);margin:0 auto;padding:24px 16px 64px}
    header{margin:0 0 24px;padding:24px 0 8px;border-bottom:1px solid var(--card-border)}
    header h1{margin:0 0 6px;font-size:28px;font-weight:700}
    header p{margin:0;color:var(--muted);font-size:14px}
    .grid{display:grid;grid-template-columns:repeat(auto-fill,minmax(220px,1fr));gap:12px}
    .tile{border:1px solid var(--card-border);border-radius:10px;overflow:hidden;background:var(--card-bg);box-shadow:0 2px 10px rgba(0,0,0,.04)}
    .tile img{display:block;width:100%;height:180px;object-fit:cover}
    .tile .cap{padding:8px 10px;font-size:12px;color:var(--muted)}
    a{color:var(--accent);text-decoration:none}
    footer{margin-top:32px;color:var(--muted);font-size:12px}
    " + "\U{0040}" + @"media print{ .tile{box-shadow:none} }
  </style>
</head>
<body>
  <div class=""container"">
    <header>
      <h1>"

  const HeadBeforeDescription: string := @"</h1>
      <p>"

  const HeadAfterDescription: string := @"</p>
    </header>
    <main>
"

  const HtmlTail: string := @"
    </main>
    <footer>
      <p>Automatisch gegenereerd door generate_indexes.py.</p>
    </footer>
  </div>
</body>
</html>
"

  /** `HTML_HEAD_TEMPLATE.format(title=title, beschrijving=description)` */
  function Head(title: string, description: string): string {
    HeadBeforeTitle + title + HeadBeforeHeading + title + HeadBeforeDescription + description
      + HeadAfterDescription
  }
}
